/**
 * The question editor's answer-list handlers. Each handler computes the
 * new answer list and hands it to the editor's `onUpdate` callback; a
 * result of None means the handler returned early and `onUpdate` was not
 * called. The only state of the editor itself is the index of the answer
 * being dragged.
 */
module QuestionEditor {
  import opened JsArray
  import opened QuizTypes

  /** The colour palette the answers are drawn in, by position. */
  const AnswerColors: seq<string> := ["red", "blue", "yellow", "green"]

  /** An editor shows between two and four answers. */
  predicate AnswerCountInRange(answers: seq<Answer>)
  {
    2 <= |answers| <= 4
  }

  /** Answer ids are pairwise distinct. */
  predicate DistinctIds(answers: seq<Answer>)
  {
    forall i, j :: 0 <= i < j < |answers| ==> answers[i].id != answers[j].id
  }

  /** `handleAnswerTextChange`: only the text of the answers with the id changes. */
  function TextChanged(answers: seq<Answer>, answerId: string, text: string): (r: seq<Answer>)
    ensures |r| == |answers|
    ensures forall i :: 0 <= i < |answers| && answers[i].id == answerId ==> r[i] == answers[i].(text := text)
    ensures forall i :: 0 <= i < |answers| && answers[i].id != answerId ==> r[i] == answers[i]
  {
    Map(answers, (a: Answer) => if a.id == answerId then a.(text := text) else a)
  }

  /**
   * `handleToggleCorrect`: no update for an ordering question; for a
   * multiple-choice question, flips the flag of the answers with the id.
   */
  function ToggledCorrect(q: Question, answerId: string): (r: Option<seq<Answer>>)
    ensures r.None? <==> q.kind == Ordering
    ensures r.Some? ==> |r.value| == |q.answers|
    ensures r.Some? ==> forall i :: 0 <= i < |q.answers| ==>
              r.value[i] == if q.answers[i].id == answerId
                            then q.answers[i].(isCorrect := !q.answers[i].isCorrect)
                            else q.answers[i]
  {
    if q.kind == Ordering then None
    else Some(Map(q.answers, (a: Answer) => if a.id == answerId then a.(isCorrect := !a.isCorrect) else a))
  }

  /** Toggling the same answer twice restores the list. */
  lemma ToggleTwiceRestores(q: Question, answerId: string)
    requires q.kind == MultipleChoice
    ensures ToggledCorrect(q.(answers := ToggledCorrect(q, answerId).value), answerId) == Some(q.answers)
  {
    var once := ToggledCorrect(q, answerId).value;
    var twice := ToggledCorrect(q.(answers := once), answerId).value;
    assert |twice| == |q.answers|;
    forall i | 0 <= i < |q.answers|
      ensures twice[i] == q.answers[i]
    {
      assert once[i].id == q.answers[i].id;
    }
    assert twice == q.answers;
  }

  /**
   * `addAnswer`: no update at four or more answers; otherwise a blank,
   * not-correct answer numbered one past the old length is appended.
   */
  function AddedAnswer(answers: seq<Answer>, newId: string): (r: Option<seq<Answer>>)
    ensures r.None? <==> |answers| >= 4
    ensures r.Some? ==> |r.value| == |answers| + 1 && r.value[..|answers|] == answers
    ensures r.Some? ==> r.value[|answers|] == Answer(newId, "", false, |answers| + 1)
  {
    if |answers| >= 4 then None
    else Some(answers + [Answer(newId, "", false, |answers| + 1)])
  }

  /** The test `removeAnswer` filters by: the answer does not carry the id. */
  function NotWithId(answerId: string): Answer -> bool
  {
    (a: Answer) => a.id != answerId
  }

  /**
   * `removeAnswer`: no update at two or fewer answers; otherwise the answers
   * with the id are dropped, and every other answer is kept as often as it
   * occurs and in its place in the order (see RemovedAnswerIsSplice).
   */
  function RemovedAnswer(answers: seq<Answer>, answerId: string): (r: Option<seq<Answer>>)
    ensures r.None? <==> |answers| <= 2
    ensures r.Some? ==> forall i :: 0 <= i < |r.value| ==> r.value[i].id != answerId && r.value[i] in answers
    ensures r.Some? ==> forall i :: 0 <= i < |answers| && answers[i].id != answerId ==> answers[i] in r.value
    ensures r.Some? ==> forall x :: multiset(r.value)[x] == if x.id != answerId then multiset(answers)[x] else 0
    ensures r.Some? && (forall i :: 0 <= i < |answers| ==> answers[i].id != answerId) ==> r.value == answers
  {
    if |answers| <= 2 then None
    else
      FilterMultiset(answers, NotWithId(answerId));
      Some(Filter(answers, NotWithId(answerId)))
  }

  /**
   * With distinct ids, removing the answer at position `k` leaves exactly
   * the list with that position spliced out: the answers before it and
   * after it keep their order.
   */
  lemma RemovedAnswerIsSplice(answers: seq<Answer>, k: nat)
    requires DistinctIds(answers) && 2 < |answers| && k < |answers|
    ensures RemovedAnswer(answers, answers[k].id) == Some(RemoveAt(answers, k))
  {
    var p := NotWithId(answers[k].id);
    forall i | 0 <= i < |answers| && i != k
      ensures p(answers[i])
    {
      if i < k {
        assert answers[i].id != answers[k].id;
      } else {
        assert answers[k].id != answers[i].id;
      }
    }
    FilterDropsOne(answers, k, p);
  }

  /** Dropping the answers with one id from a list of distinct ids loses at most one answer. */
  lemma {:induction false} RemoveLosesAtMostOne(answers: seq<Answer>, answerId: string)
    requires DistinctIds(answers)
    ensures |Filter(answers, NotWithId(answerId))| >= |answers| - 1
    ensures (forall i :: 0 <= i < |answers| ==> answers[i].id != answerId) ==>
              |Filter(answers, NotWithId(answerId))| == |answers|
    decreases |answers|
  {
    if |answers| > 0 {
      var rest := answers[1..];
      assert DistinctIds(rest) by {
        forall i, j | 0 <= i < j < |rest| ensures rest[i].id != rest[j].id {
          assert rest[i] == answers[i + 1] && rest[j] == answers[j + 1];
        }
      }
      RemoveLosesAtMostOne(rest, answerId);
      if answers[0].id == answerId {
        assert forall i :: 0 <= i < |rest| ==> rest[i].id != answerId by {
          forall i | 0 <= i < |rest| ensures rest[i].id != answerId {
            assert rest[i] == answers[i + 1];
          }
        }
      }
    }
  }

  /**
   * Starting from two to four answers with distinct ids, adding and removing
   * keep the count between two and four, so every answer has a colour.
   */
  lemma EditsKeepCountInRange(answers: seq<Answer>, newId: string, answerId: string)
    requires AnswerCountInRange(answers) && DistinctIds(answers)
    ensures AddedAnswer(answers, newId).Some? ==> AnswerCountInRange(AddedAnswer(answers, newId).value)
    ensures RemovedAnswer(answers, answerId).Some? ==> AnswerCountInRange(RemovedAnswer(answers, answerId).value)
    ensures AddedAnswer(answers, newId).Some? ==> |AddedAnswer(answers, newId).value| <= |AnswerColors|
    ensures RemovedAnswer(answers, answerId).Some? ==> |RemovedAnswer(answers, answerId).value| <= |AnswerColors|
  {
    if |answers| > 2 {
      RemoveLosesAtMostOne(answers, answerId);
    }
  }

  /** `answers.map((a, i) => ({ ...a, order: i + 1 }))`. */
  function Renumbered(answers: seq<Answer>): (r: seq<Answer>)
    ensures |r| == |answers|
    ensures forall i :: 0 <= i < |r| ==> r[i].order == i + 1
    ensures forall i :: 0 <= i < |r| ==> r[i].(order := answers[i].order) == answers[i]
    decreases |answers|
  {
    if |answers| == 0 then []
    else
      var rest := Renumbered(answers[1..]);
      [answers[0].(order := 1)] + Map(rest, (a: Answer) => a.(order := a.order + 1))
  }

  /**
   * The blocks a reorder leaves: the answer list moved and renumbered. Its
   * answers are those of the input, rearranged (`Move` is a permutation),
   * with the order fields 1..n.
   */
  function Reordered(answers: seq<Answer>, from: nat, to: nat): (r: seq<Answer>)
    requires from < |answers| && to < |answers|
    ensures |r| == |answers|
    ensures forall i :: 0 <= i < |r| ==> r[i].order == i + 1
    ensures forall i :: 0 <= i < |r| ==> r[i] == Move(answers, from, to)[i].(order := i + 1)
    ensures r[to] == answers[from].(order := to + 1)
  {
    Renumbered(Move(answers, from, to))
  }

  /** The ids after a reorder are a permutation of the ids before. */
  lemma ReorderedIdsArePermutation(answers: seq<Answer>, from: nat, to: nat)
    requires from < |answers| && to < |answers|
    ensures multiset(Map(Reordered(answers, from, to), (a: Answer) => a.id)) ==
            multiset(Map(answers, (a: Answer) => a.id))
  {
    var f := (a: Answer) => a.id;
    assert Map(Reordered(answers, from, to), f) == Map(Move(answers, from, to), f);
    MapMove(answers, from, to, f);
    MovePermutes(Map(answers, f), from, to);
  }

  /** The editor's drag state. */
  class Editor {
    var draggedIndex: Option<nat>

    constructor ()
      ensures draggedIndex == None
    {
      draggedIndex := None;
    }

    /** `handleDragStart`. */
    method DragStart(index: nat)
      modifies this
      ensures draggedIndex == Some(index)
    {
      draggedIndex := Some(index);
    }

    /**
     * `handleDragOver`: nothing while nothing is dragged or over the dragged
     * answer itself; otherwise the reordered list goes to `onUpdate` and the
     * target becomes the dragged index.
     */
    method DragOver(answers: seq<Answer>, index: nat) returns (update: Option<seq<Answer>>)
      requires index < |answers|
      requires draggedIndex.Some? ==> draggedIndex.value < |answers|
      modifies this
      ensures old(draggedIndex).None? || old(draggedIndex) == Some(index) ==>
                update.None? && draggedIndex == old(draggedIndex)
      ensures old(draggedIndex).Some? && old(draggedIndex) != Some(index) ==>
                update == Some(Reordered(answers, old(draggedIndex).value, index)) && draggedIndex == Some(index)
    {
      if draggedIndex.None? || draggedIndex == Some(index) {
        update := None;
        return;
      }
      update := Some(Reordered(answers, draggedIndex.value, index));
      draggedIndex := Some(index);
    }

    /** `handleDragEnd`. */
    method DragEnd()
      modifies this
      ensures draggedIndex == None
    {
      draggedIndex := None;
    }
  }
}
