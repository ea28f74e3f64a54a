/**
 * The ordering-question widget: the player arranges the answers (shuffled
 * on mount, or shown in their correct order in results mode) by dragging
 * or with up/down buttons, and submits the ids in the chosen order once.
 */
module OrderingQuestion {
  import opened JsArray

  /** The widget's own answer shape; `orderIndex` is the 0-based correct position. */
  datatype OAnswer = OAnswer(id: string, answerText: string, orderIndex: int)

  function OrderIndex(a: OAnswer): int { a.orderIndex }

  /**
   * What the Fisher–Yates loop leaves after it has swapped position `hi`
   * with `choices[hi]`, then `hi - 1` with `choices[hi - 1]`, and so on down
   * to position 1. `choices[i]` is `Math.floor(Math.random() * (i + 1))`.
   */
  function ShuffleSteps<T>(s: seq<T>, choices: seq<int>, hi: int): (r: seq<T>)
    requires hi < |s| && |choices| == |s|
    requires forall i :: 0 < i < |s| ==> 0 <= choices[i] <= i
    ensures |r| == |s|
    decreases hi
  {
    if hi <= 0 then s else ShuffleSteps(Swap(s, hi, choices[hi]), choices, hi - 1)
  }

  /** The shuffle only rearranges: its result is a permutation of its input. */
  lemma {:induction false} ShufflePermutes<T>(s: seq<T>, choices: seq<int>, hi: int)
    requires hi < |s| && |choices| == |s|
    requires forall i :: 0 < i < |s| ==> 0 <= choices[i] <= i
    ensures multiset(ShuffleSteps(s, choices, hi)) == multiset(s)
    decreases hi
  {
    if hi > 0 {
      SwapPermutes(s, hi, choices[hi]);
      ShufflePermutes(Swap(s, hi, choices[hi]), choices, hi - 1);
    }
  }

  /**
   * Positions above `hi` are never touched, and position `hi` ends up
   * holding the element drawn for it: `s[choices[hi]]`.
   */
  lemma {:induction false} ShuffleFixesDrawn<T>(s: seq<T>, choices: seq<int>, hi: int)
    requires 0 <= hi < |s| && |choices| == |s|
    requires forall i :: 0 < i < |s| ==> 0 <= choices[i] <= i
    ensures forall k :: hi < k < |s| ==> ShuffleSteps(s, choices, hi)[k] == s[k]
    ensures 0 < hi ==> ShuffleSteps(s, choices, hi)[hi] == s[choices[hi]]
    decreases hi
  {
    if hi > 0 {
      var t := Swap(s, hi, choices[hi]);
      ShuffleFixesDrawn(t, choices, hi - 1);
      assert ShuffleSteps(s, choices, hi) == ShuffleSteps(t, choices, hi - 1);
      assert t[hi] == s[choices[hi]];
      forall k | hi < k < |s| ensures t[k] == s[k] {
        assert k != choices[hi];
      }
    }
  }

  /** Drawing `j == i` at every step leaves the order unchanged. */
  lemma {:induction false} ShuffleIdentity<T>(s: seq<T>, choices: seq<int>, hi: int)
    requires hi < |s| && |choices| == |s|
    requires forall i :: 0 < i < |s| ==> choices[i] == i
    ensures ShuffleSteps(s, choices, hi) == s
    decreases hi
  {
    if hi > 0 {
      assert Swap(s, hi, choices[hi]) == s;
      ShuffleIdentity(s, choices, hi - 1);
    }
  }

  /**
   * `shuffleArray`: copies the input and swaps from the last position down
   * to position 1, each with a drawn position at or below it.
   */
  method ShuffleArray<T>(input: seq<T>, choices: seq<int>) returns (shuffled: seq<T>)
    requires |choices| == |input|
    requires forall i :: 0 < i < |input| ==> 0 <= choices[i] <= i
    ensures shuffled == ShuffleSteps(input, choices, |input| - 1)
    ensures multiset(shuffled) == multiset(input)
  {
    var a := new T[|input|](k requires 0 <= k < |input| => input[k]);
    assert a[..] == input;
    var i := |input| - 1;
    while i > 0
      invariant -1 <= i < |input| && a.Length == |input|
      invariant ShuffleSteps(a[..], choices, i) == ShuffleSteps(input, choices, |input| - 1)
      decreases i
    {
      var j := choices[i];
      ghost var before := a[..];
      a[i], a[j] := a[j], a[i];
      assert a[..] == Swap(before, i, j);
      assert ShuffleSteps(before, choices, i) == ShuffleSteps(Swap(before, i, j), choices, i - 1);
      i := i - 1;
    }
    shuffled := a[..];
    ShufflePermutes(input, choices, |input| - 1);
  }

  /** `[...answers].sort((a, b) => a.order_index - b.order_index)`. */
  function ResultsOrder(answers: seq<OAnswer>): (r: seq<OAnswer>)
    ensures |r| == |answers|
    ensures multiset(r) == multiset(answers)
    ensures forall i, j :: 0 <= i < j < |r| ==> r[i].orderIndex <= r[j].orderIndex
  {
    var r := SortBy(answers, OrderIndex);
    assert SortedBy(r, OrderIndex);
    r
  }

  /** Answers with equal `order_index` keep their displayed order in the results. */
  lemma ResultsOrderKeepsTies(answers: seq<OAnswer>, index: int)
    ensures Filter(ResultsOrder(answers), KeyIs(OrderIndex, index)) == Filter(answers, KeyIs(OrderIndex, index))
  {
    SortByStable(answers, OrderIndex, index);
    assert ResultsOrder(answers) == SortBy(answers, OrderIndex);
  }

  /** `isCorrectPosition`: an answer is right where its 0-based index is its position. */
  predicate IsCorrectPosition(answer: OAnswer, index: int)
  {
    answer.orderIndex == index
  }

  /** The order indices are pairwise distinct and lie in 0..n-1. */
  predicate IndicesArePositions(answers: seq<OAnswer>)
  {
    && (forall i :: 0 <= i < |answers| ==> 0 <= answers[i].orderIndex < |answers|)
    && (forall i, j :: 0 <= i < j < |answers| ==> answers[i].orderIndex != answers[j].orderIndex)
  }

  /** An element occurring at two positions of a sequence occurs there at least twice. */
  lemma TwiceCounted<T>(r: seq<T>, i: nat, j: nat)
    requires i < j < |r| && r[i] == r[j]
    ensures multiset(r)[r[i]] >= 2
  {
    assert r == r[..j] + [r[j]] + r[j + 1..];
    assert r[..j][i] == r[i];
    assert r[i] in multiset(r[..j]);
  }

  /** With distinct order indices, each answer occurs once. */
  lemma OnceCounted(s: seq<OAnswer>, p: nat)
    requires p < |s| && IndicesArePositions(s)
    ensures multiset(s)[s[p]] == 1
  {
    assert s == s[..p] + [s[p]] + s[p + 1..];
    assert forall k :: 0 <= k < |s| && k != p ==> s[k] != s[p];
    assert s[p] !in s[..p];
    assert s[p] !in s[p + 1..];
  }

  /** A permutation of answers with distinct order indices has distinct order indices. */
  lemma DistinctIndicesKept(s: seq<OAnswer>, r: seq<OAnswer>)
    requires IndicesArePositions(s) && multiset(r) == multiset(s)
    ensures forall i, j :: 0 <= i < j < |r| ==> r[i].orderIndex != r[j].orderIndex
  {
    forall i, j | 0 <= i < j < |r|
      ensures r[i].orderIndex != r[j].orderIndex
    {
      if r[i].orderIndex == r[j].orderIndex {
        assert r[i] in multiset(s) && r[j] in multiset(s);
        var p :| 0 <= p < |s| && s[p] == r[i];
        var q :| 0 <= q < |s| && s[q] == r[j];
        assert p == q;
        TwiceCounted(r, i, j);
        OnceCounted(s, p);
      }
    }
  }

  /** Order indices that strictly increase along the list grow by at least one per step. */
  lemma {:induction false} IncreasingSpread(r: seq<OAnswer>, i: nat, j: nat)
    requires forall a, b :: 0 <= a < b < |r| ==> r[a].orderIndex < r[b].orderIndex
    requires i <= j < |r|
    ensures r[j].orderIndex - r[i].orderIndex >= j - i
    decreases j - i
  {
    if i < j {
      IncreasingSpread(r, i, j - 1);
    }
  }

  /** Strictly increasing order indices within 0..n-1 are exactly the positions. */
  lemma IncreasingIndicesArePositions(r: seq<OAnswer>)
    requires forall a, b :: 0 <= a < b < |r| ==> r[a].orderIndex < r[b].orderIndex
    requires forall i :: 0 <= i < |r| ==> 0 <= r[i].orderIndex < |r|
    ensures forall i :: 0 <= i < |r| ==> r[i].orderIndex == i
  {
    forall i | 0 <= i < |r| ensures r[i].orderIndex == i {
      IncreasingSpread(r, 0, i);
      IncreasingSpread(r, i, |r| - 1);
    }
  }

  /** A permutation of answers whose order indices lie in 0..n-1 has its indices there too. */
  lemma IndicesInRangeKept(s: seq<OAnswer>, r: seq<OAnswer>)
    requires IndicesArePositions(s) && multiset(r) == multiset(s) && |r| == |s|
    ensures forall i :: 0 <= i < |r| ==> 0 <= r[i].orderIndex < |r|
  {
    forall i | 0 <= i < |r| ensures 0 <= r[i].orderIndex < |r| {
      assert r[i] in multiset(s);
    }
  }

  /**
   * In results mode, when the order indices are exactly the positions 0..n-1,
   * every answer is shown in its correct position.
   */
  lemma ResultsAllCorrect(answers: seq<OAnswer>)
    requires IndicesArePositions(answers)
    ensures forall i :: 0 <= i < |answers| ==> IsCorrectPosition(ResultsOrder(answers)[i], i)
  {
    var r := ResultsOrder(answers);
    DistinctIndicesKept(answers, r);
    IndicesInRangeKept(answers, r);
    IncreasingIndicesArePositions(r);
  }

  /** The widget's state: its props and its three state variables. */
  class OrderingWidget {
    const answers: seq<OAnswer>
    const disabled: bool
    const showResults: bool
    var orderedAnswers: seq<OAnswer>
    var draggedIndex: Option<nat>
    var submitted: bool

    /** The displayed list is always an arrangement of the answers. */
    ghost predicate Valid()
      reads this
    {
      multiset(orderedAnswers) == multiset(answers)
    }

    /**
     * Mounting, with the arranging effect applied: the answers in their
     * correct order in results mode, otherwise shuffled with `choices`.
     */
    constructor (answers: seq<OAnswer>, disabled: bool, showResults: bool, choices: seq<int>)
      requires |choices| == |answers|
      requires forall i :: 0 < i < |answers| ==> 0 <= choices[i] <= i
      ensures this.answers == answers && this.disabled == disabled && this.showResults == showResults
      ensures showResults ==> orderedAnswers == ResultsOrder(answers)
      ensures !showResults ==> orderedAnswers == ShuffleSteps(answers, choices, |answers| - 1)
      ensures draggedIndex == None && !submitted
      ensures Valid()
    {
      this.answers := answers;
      this.disabled := disabled;
      this.showResults := showResults;
      draggedIndex := None;
      submitted := false;
      var arranged := ResultsOrder(answers);
      if !showResults {
        arranged := ShuffleArray(answers, choices);
      }
      orderedAnswers := arranged;
    }

    /** `handleDragStart` and `handleTouchStart`: ignored once disabled or submitted. */
    method DragStart(index: nat)
      modifies this`draggedIndex
      ensures disabled || submitted ==> draggedIndex == old(draggedIndex)
      ensures !disabled && !submitted ==> draggedIndex == Some(index)
    {
      if disabled || submitted {
        return;
      }
      draggedIndex := Some(index);
    }

    /**
     * `handleDragOver`: the dragged answer moves to the hovered position,
     * which becomes the dragged index.
     */
    method DragOver(index: nat)
      requires Valid()
      requires index < |orderedAnswers|
      requires draggedIndex.Some? ==> draggedIndex.value < |orderedAnswers|
      modifies this`orderedAnswers, this`draggedIndex
      ensures Valid()
      ensures old(draggedIndex).None? || old(draggedIndex) == Some(index) || disabled || submitted ==>
                orderedAnswers == old(orderedAnswers) && draggedIndex == old(draggedIndex)
      ensures old(draggedIndex).Some? && old(draggedIndex) != Some(index) && !disabled && !submitted ==>
                orderedAnswers == Move(old(orderedAnswers), old(draggedIndex).value, index) &&
                draggedIndex == Some(index)
    {
      if draggedIndex.None? || draggedIndex == Some(index) || disabled || submitted {
        return;
      }
      MovePermutes(orderedAnswers, draggedIndex.value, index);
      orderedAnswers := Move(orderedAnswers, draggedIndex.value, index);
      draggedIndex := Some(index);
    }

    /** `handleDragEnd`. */
    method DragEnd()
      modifies this`draggedIndex
      ensures draggedIndex == None
    {
      draggedIndex := None;
    }

    /** `handleMoveUp`: swaps with the answer above, except at the top. */
    method MoveUp(index: nat)
      requires Valid() && index < |orderedAnswers|
      modifies this`orderedAnswers
      ensures Valid()
      ensures disabled || submitted || index == 0 ==> orderedAnswers == old(orderedAnswers)
      ensures !disabled && !submitted && index > 0 ==>
                orderedAnswers == Swap(old(orderedAnswers), index - 1, index)
    {
      if disabled || submitted || index == 0 {
        return;
      }
      SwapPermutes(orderedAnswers, index - 1, index);
      orderedAnswers := Swap(orderedAnswers, index - 1, index);
    }

    /** `handleMoveDown`: swaps with the answer below, except at the bottom. */
    method MoveDown(index: nat)
      requires Valid() && index < |orderedAnswers|
      modifies this`orderedAnswers
      ensures Valid()
      ensures disabled || submitted || index == |old(orderedAnswers)| - 1 ==> orderedAnswers == old(orderedAnswers)
      ensures !disabled && !submitted && index < |old(orderedAnswers)| - 1 ==>
                orderedAnswers == Swap(old(orderedAnswers), index, index + 1)
    {
      if disabled || submitted || index == |orderedAnswers| - 1 {
        return;
      }
      SwapPermutes(orderedAnswers, index, index + 1);
      orderedAnswers := Swap(orderedAnswers, index, index + 1);
    }

    /**
     * `handleSubmit`: the ids in the displayed order go to `onSubmit` (the
     * result), at most once: a second call, or any call while disabled,
     * reports nothing.
     */
    method Submit() returns (orderedIds: Option<seq<string>>)
      modifies this`submitted
      ensures disabled || old(submitted) ==> orderedIds.None? && submitted == old(submitted)
      ensures !disabled && !old(submitted) ==>
                submitted && orderedIds == Some(Map(orderedAnswers, (a: OAnswer) => a.id))
    {
      if disabled || submitted {
        return None;
      }
      submitted := true;
      orderedIds := Some(Map(orderedAnswers, (a: OAnswer) => a.id));
    }
  }
}
