/**
 * The card strip of UOverlappedCardWidget: three parallel lists (the card
 * widgets, the data object each card shows, and each card's target X
 * position) kept in step through insertion, removal and clearing, a
 * highlighted card, and the layout that places the cards right to left with
 * a clamped overlap.
 */
module OverlappedCards {
  import opened Wrappers

  /** INDEX_NONE. */
  const IndexNone: int := -1

  /** The container width used when the container reports none. */
  const FallbackWidth: real := 1920.0

  /**
   * CardWidgets (widget identities), CardData (data object identities),
   * TargetPositions, HighlightIndex, and the identity the next created card
   * widget receives.
   */
  datatype Strip = Strip(widgets: seq<nat>, data: seq<nat>, targets: seq<real>, highlight: int, nextWidget: nat)

  /**
   * What the widget is bound to: whether CardContainer and CardWidgetClass
   * are set, CardWidth, and the X size of the container's canvas slot (None
   * when the container does not sit in a canvas slot).
   */
  datatype Panel = Panel(hasContainer: bool, hasWidgetClass: bool, cardWidth: real, containerSlotWidth: Option<real>)

  /** The three lists have one entry per card. */
  predicate Lockstep(s: Strip)
  {
    |s.widgets| == |s.data| == |s.targets|
  }

  /** FMath::Clamp on int32. */
  function ClampInt(x: int, lo: int, hi: int): int
  {
    if x < lo then lo else if x < hi then x else hi
  }

  /** FMath::Clamp on float. */
  function ClampReal(x: real, lo: real, hi: real): real
  {
    if x < lo then lo else if x < hi then x else hi
  }

  /** TArray::Insert. */
  function InsertAt<T>(s: seq<T>, x: T, i: int): (r: seq<T>)
    requires 0 <= i <= |s|
    ensures |r| == |s| + 1 && r[i] == x
    ensures forall k :: 0 <= k < i ==> r[k] == s[k]
    ensures forall k :: i < k < |r| ==> r[k] == s[k - 1]
  {
    s[..i] + [x] + s[i..]
  }

  /** TArray::RemoveAt. */
  function RemoveAt<T>(s: seq<T>, i: int): (r: seq<T>)
    requires 0 <= i < |s|
    ensures |r| == |s| - 1
    ensures forall k :: 0 <= k < i ==> r[k] == s[k]
    ensures forall k :: i <= k < |r| ==> r[k] == s[k + 1]
  {
    s[..i] + s[i + 1..]
  }

  /** TArray::SetNum: truncate, or pad with zeros. */
  function SetNum(s: seq<real>, n: nat): (r: seq<real>)
    ensures |r| == n
    ensures forall k :: 0 <= k < n && k < |s| ==> r[k] == s[k]
    ensures forall k :: |s| <= k < n ==> r[k] == 0.0
  {
    if n <= |s| then s[..n] else s + seq(n - |s|, _ => 0.0)
  }

  /** The container width: the canvas slot's, unless it is missing or not positive. */
  function ContainerWidth(p: Panel): (w: real)
    ensures w > 0.0
    ensures p.containerSlotWidth.Some? && p.containerSlotWidth.value > 0.0 ==> w == p.containerSlotWidth.value
    ensures p.containerSlotWidth.None? || p.containerSlotWidth.value <= 0.0 ==> w == FallbackWidth
  {
    var w := match p.containerSlotWidth case None => 0.0 case Some(x) => x;
    if w <= 0.0 then FallbackWidth else w
  }

  /** The part of a highlighted card left uncovered by its right neighbour's overlap: 10% of the card. */
  function HighlightOverlap(cardWidth: real): real
  {
    cardWidth * 0.1
  }

  /**
   * The overlap between ordinary neighbours: for several cards, the one that
   * would make the n - 1 ordinary gaps add up to the container width less two
   * card widths, clamped to between 80% and 100% of the card width; a single
   * card overlaps fully.
   */
  function NormalOverlap(n: nat, cardWidth: real, width: real): (r: real)
    ensures n <= 1 ==> r == cardWidth
    ensures n > 1 && cardWidth >= 0.0 ==> cardWidth * 0.8 <= r <= cardWidth
    // a wide container: the gaps stop growing at 20% of a card
    ensures n > 1 && cardWidth >= 0.0 && cardWidth * 0.2 * ((n - 1) as real) <= width - 2.0 * cardWidth ==> r == cardWidth * 0.8
    // a narrow container: the cards lie on top of each other
    ensures n > 1 && cardWidth >= 0.0 && width - 2.0 * cardWidth <= 0.0 ==> r == cardWidth
    // in between: the ordinary gaps fill exactly the container less two card widths
    ensures n > 1 && 0.0 <= width - 2.0 * cardWidth <= cardWidth * 0.2 * ((n - 1) as real) ==>
              (cardWidth - r) * ((n - 1) as real) == width - 2.0 * cardWidth
  {
    if n > 1 then
      var highlightPixels := HighlightOverlap(cardWidth);
      var available := width - highlightPixels;
      var required := cardWidth - (available - (cardWidth - highlightPixels) - cardWidth) / ((n - 1) as real);
      RequiredOverlapShape(n, cardWidth, width, required);
      ClampReal(required, cardWidth * 0.8, cardWidth * 1.0)
    else
      cardWidth
  }

  /** For a positive divisor, a quotient is bounded as its dividend is. */
  lemma QuotientBounds(d: real, m: real, b: real)
    requires m > 0.0
    ensures (d / m) * m == d
    ensures b * m <= d ==> b <= d / m
    ensures d <= b * m ==> d / m <= b
  {
  }

  /**
   * The overlap that fits leaves `width - 2 * cardWidth` to the n - 1
   * ordinary gaps, and so lies at or beyond each clamp bound as that total
   * does.
   */
  lemma RequiredOverlapShape(n: nat, cardWidth: real, width: real, required: real)
    requires n > 1
    requires required == cardWidth - (width - HighlightOverlap(cardWidth) - (cardWidth - HighlightOverlap(cardWidth)) - cardWidth) / ((n - 1) as real)
    ensures (cardWidth - required) * ((n - 1) as real) == width - 2.0 * cardWidth
    ensures cardWidth * 0.2 * ((n - 1) as real) <= width - 2.0 * cardWidth ==> required <= cardWidth * 0.8
    ensures width - 2.0 * cardWidth <= 0.0 ==> required >= cardWidth
    ensures 0.0 <= width - 2.0 * cardWidth <= cardWidth * 0.2 * ((n - 1) as real) ==>
              cardWidth * 0.8 <= required <= cardWidth
  {
    var m := (n - 1) as real;
    var d := width - 2.0 * cardWidth;
    assert cardWidth - required == d / m;
    QuotientBounds(d, m, cardWidth * 0.2);
    QuotientBounds(d, m, 0.0);
  }

  /**
   * The gap from card i's left edge to its right neighbour's (or to the
   * container's right edge for the last card): 90% of the card for the
   * highlighted one, the card width less the normal overlap otherwise.
   */
  function Steps(n: nat, highlight: int, cardWidth: real, overlap: real): (r: seq<real>)
    ensures |r| == n
    ensures forall i :: 0 <= i < n ==> r[i] == (if i == highlight then cardWidth - HighlightOverlap(cardWidth) else cardWidth - overlap)
  {
    seq(n, i => if i == highlight then cardWidth - HighlightOverlap(cardWidth) else cardWidth - overlap)
  }

  /** The sum of the steps from index i to the end. */
  function SuffixSum(steps: seq<real>, i: nat): real
    requires i <= |steps|
    decreases |steps| - i
  {
    if i == |steps| then 0.0 else steps[i] + SuffixSum(steps, i + 1)
  }

  /** Every step is non-negative. */
  predicate NonNegative(steps: seq<real>)
  {
    forall i :: 0 <= i < |steps| ==> steps[i] >= 0.0
  }

  /** With non-negative steps, a longer suffix sums to no less than a shorter one, and to no less than zero. */
  lemma {:induction false} SuffixSumAntitone(steps: seq<real>, i: nat, j: nat)
    requires NonNegative(steps) && i <= j <= |steps|
    ensures SuffixSum(steps, i) >= SuffixSum(steps, j) >= 0.0
    decreases j - i, |steps| - j
  {
    if i < j {
      SuffixSumAntitone(steps, i + 1, j);
    } else if j < |steps| {
      SuffixSumAntitone(steps, j + 1, j + 1);
    }
  }

  /** The left edge to the right of card i: the next card's target, or the container's right edge. */
  function RightOf(targets: seq<real>, width: real, i: nat): real
    requires i < |targets|
  {
    if i + 1 < |targets| then targets[i + 1] else width
  }

  /**
   * Positions laid right to left from the container's right edge: card i
   * starts its own step to the left of whatever lies to its right.
   */
  function LayoutPositions(width: real, steps: seq<real>): (r: seq<real>)
    ensures |r| == |steps|
    ensures forall i {:trigger RightOf(r, width, i)} :: 0 <= i < |r| ==> RightOf(r, width, i) - r[i] == steps[i]
  {
    var r := seq(|steps|, i requires 0 <= i < |steps| => width - SuffixSum(steps, i));
    SuffixSumSteps(steps);
    r
  }

  /** Neighbouring suffix sums differ by one step, and the last is that last step. */
  lemma SuffixSumSteps(steps: seq<real>)
    ensures forall i :: 0 <= i < |steps| ==> SuffixSum(steps, i) - SuffixSum(steps, i + 1) == steps[i]
    ensures |steps| > 0 ==> SuffixSum(steps, |steps| - 1) == steps[|steps| - 1]
  {
  }

  /** With non-negative steps the positions never decrease and never pass the right edge. */
  lemma LayoutOrdered(width: real, steps: seq<real>)
    requires NonNegative(steps)
    ensures var r := LayoutPositions(width, steps);
            forall i, j :: 0 <= i <= j < |r| ==> r[i] <= r[j] <= width
  {
    var r := LayoutPositions(width, steps);
    forall i, j | 0 <= i <= j < |r|
      ensures r[i] <= r[j] <= width
    {
      SuffixSumAntitone(steps, i, j);
    }
  }

  /**
   * The loop of UpdateLayoutTargets: from the last card to the first, step
   * left from the right edge and record each card's position.
   */
  method ComputeTargets(width: real, steps: seq<real>) returns (targets: seq<real>)
    ensures targets == LayoutPositions(width, steps)
  {
    var n := |steps|;
    targets := seq(n, _ => 0.0);
    var x := width;
    var i := n;
    while i > 0
      invariant 0 <= i <= n && |targets| == n
      invariant x == width - SuffixSum(steps, i)
      invariant forall k :: i <= k < n ==> targets[k] == width - SuffixSum(steps, k)
    {
      i := i - 1;
      assert SuffixSum(steps, i) == steps[i] + SuffixSum(steps, i + 1);
      x := x - steps[i];
      targets := targets[i := x];
    }
    PositionsByElement(targets, width, steps);
  }

  /** A sequence holding, at each index, the width less the suffix sum from there is the layout. */
  lemma PositionsByElement(targets: seq<real>, width: real, steps: seq<real>)
    requires |targets| == |steps|
    requires forall k :: 0 <= k < |steps| ==> targets[k] == width - SuffixSum(steps, k)
    ensures targets == LayoutPositions(width, steps)
  {
    var layout := LayoutPositions(width, steps);
    assert forall k :: 0 <= k < |steps| ==> layout[k] == targets[k];
  }

  /** The target positions of n cards with the given highlight. */
  function Layout(p: Panel, n: nat, highlight: int): (r: seq<real>)
    ensures |r| == n
  {
    var width := ContainerWidth(p);
    LayoutPositions(width, Steps(n, highlight, p.cardWidth, NormalOverlap(n, p.cardWidth, width)))
  }

  /**
   * What the layout promises for a non-negative card width: the highlighted
   * card starts 90% of a card width left of what lies to its right, every
   * other card between 0% and 20%; a lone card that is not highlighted
   * overlaps fully and so starts at the container's right edge; and the
   * positions are ordered and within the container.
   */
  lemma LayoutShape(p: Panel, n: nat, highlight: int)
    requires p.cardWidth >= 0.0
    ensures var r := Layout(p, n, highlight);
            var w := ContainerWidth(p);
            && (forall i :: 0 <= i < n && i == highlight ==> RightOf(r, w, i) - r[i] == p.cardWidth * 0.9)
            && (forall i :: 0 <= i < n && i != highlight ==> 0.0 <= RightOf(r, w, i) - r[i] <= p.cardWidth * 0.2)
            && (n == 1 && highlight != 0 ==> r[0] == w)
            && (forall i, j :: 0 <= i <= j < n ==> r[i] <= r[j] <= w)
  {
    var w := ContainerWidth(p);
    var steps := Steps(n, highlight, p.cardWidth, NormalOverlap(n, p.cardWidth, w));
    assert NonNegative(steps);
    LayoutOrdered(w, steps);
  }

  /** The targets are the fresh layout of the current cards and highlight. */
  predicate Laid(s: Strip, p: Panel)
  {
    s.targets == Layout(p, |s.widgets|, s.highlight)
  }

  /**
   * UpdateLayoutTargets: the position list is resized to the card count;
   * without cards or a container nothing more happens, otherwise every card
   * gets its layout position.
   */
  function UpdateLayoutTargets(s: Strip, p: Panel): (r: Strip)
    ensures r.(targets := s.targets) == s
    ensures |r.targets| == |r.widgets|
    ensures |s.widgets| == 0 || !p.hasContainer ==> r.targets == SetNum(s.targets, |s.widgets|)
    ensures |s.widgets| > 0 && p.hasContainer ==> Laid(r, p)
    ensures Lockstep(s) ==> Lockstep(r)
  {
    var n := |s.widgets|;
    var sized := s.(targets := SetNum(s.targets, n));
    if n == 0 || !p.hasContainer then sized
    else sized.(targets := Layout(p, n, s.highlight))
  }

  /** NativeConstruct: the three lists start empty; the highlight is left as it is. */
  function NativeConstruct(s: Strip): (r: Strip)
    ensures Lockstep(r) && r.widgets == [] && r.data == []
    ensures r.highlight == s.highlight && r.nextWidget == s.nextWidget
  {
    s.(widgets := [], data := [], targets := [])
  }

  /**
   * InsertCard. `card` is the data object, None for null; `created` whether
   * CreateWidget returned a widget. A missing container, widget class or data
   * object, or a failed creation, changes nothing; otherwise the index is
   * clamped into [0, N] and a new widget and the data object go there.
   */
  function InsertCard(s: Strip, p: Panel, index: int, card: Option<nat>, created: bool): (r: Strip)
    requires Lockstep(s)
    ensures Lockstep(r)
    ensures !p.hasContainer || !p.hasWidgetClass || card.None? || !created ==> r == s
    ensures p.hasContainer && p.hasWidgetClass && card.Some? && created ==>
              var i := ClampInt(index, 0, |s.widgets|);
              && 0 <= i <= |s.widgets|
              && r.data == s.data[..i] + [card.value] + s.data[i..]
              && r.widgets == s.widgets[..i] + [s.nextWidget] + s.widgets[i..]
              && r.nextWidget == s.nextWidget + 1
              && r.highlight == s.highlight
              && Laid(r, p)
  {
    if !p.hasContainer || !p.hasWidgetClass || card.None? then s
    else
      var i := ClampInt(index, 0, |s.widgets|);
      if !created then s
      else
        var inserted := s.(widgets := InsertAt(s.widgets, s.nextWidget, i),
                           data := InsertAt(s.data, card.value, i),
                           targets := InsertAt(s.targets, 0.0, i),
                           nextWidget := s.nextWidget + 1);
        UpdateLayoutTargets(inserted, p)
  }

  /**
   * RemoveCard: an index outside the cards, or no container, changes nothing;
   * otherwise that slot leaves all three lists and the highlight index stays
   * as it was, even if it no longer names a card.
   */
  function RemoveCard(s: Strip, p: Panel, index: int): (r: Strip)
    requires Lockstep(s)
    ensures Lockstep(r)
    ensures index < 0 || index >= |s.widgets| || !p.hasContainer ==> r == s
    ensures 0 <= index < |s.widgets| && p.hasContainer ==>
              && r.data == s.data[..index] + s.data[index + 1..]
              && r.widgets == s.widgets[..index] + s.widgets[index + 1..]
              && r.highlight == s.highlight && r.nextWidget == s.nextWidget
              && (|r.widgets| > 0 ==> Laid(r, p))
  {
    if index < 0 || index >= |s.widgets| || !p.hasContainer then s
    else
      var removed := s.(widgets := RemoveAt(s.widgets, index),
                        data := RemoveAt(s.data, index),
                        targets := RemoveAt(s.targets, index));
      UpdateLayoutTargets(removed, p)
  }

  /** Removing a card just inserted at a valid index gives back the data and widgets as they were. */
  lemma RemoveUndoesInsert(s: Strip, p: Panel, index: int, card: nat)
    requires Lockstep(s) && p.hasContainer && p.hasWidgetClass && 0 <= index <= |s.widgets|
    ensures var r := RemoveCard(InsertCard(s, p, index, Some(card), true), p, index);
            r.data == s.data && r.widgets == s.widgets && r.highlight == s.highlight
  {
    var t := InsertCard(s, p, index, Some(card), true);
    assert t.data[..index] + t.data[index + 1..] == s.data;
    assert t.widgets[..index] + t.widgets[index + 1..] == s.widgets;
  }

  /** ClearCards: no cards and no highlight. */
  function ClearCards(s: Strip): (r: Strip)
    ensures Lockstep(r) && r.widgets == [] && r.data == [] && r.targets == []
    ensures r.highlight == IndexNone && r.nextWidget == s.nextWidget
  {
    s.(widgets := [], data := [], targets := [], highlight := IndexNone)
  }

  /** HighlightCard: an index outside the cards changes nothing; otherwise it becomes the highlight. */
  function HighlightCard(s: Strip, p: Panel, index: int): (r: Strip)
    requires Lockstep(s)
    ensures Lockstep(r)
    ensures index < 0 || index >= |s.widgets| ==> r == s
    ensures 0 <= index < |s.widgets| ==>
              && r.highlight == index
              && r.(targets := s.targets, highlight := s.highlight) == s
              && (p.hasContainer ==> Laid(r, p))
              && (!p.hasContainer ==> r.targets == s.targets)
  {
    if index < 0 || index >= |s.widgets| then s
    else UpdateLayoutTargets(s.(highlight := index), p)
  }

  /** The data objects of a list with the null entries dropped, in order. */
  function Present(cards: seq<Option<nat>>): seq<nat>
  {
    if |cards| == 0 then []
    else (if cards[0].Some? then [cards[0].value] else []) + Present(cards[1..])
  }

  /** The loop of SetCards: each card appended at the end in turn. */
  function AppendCards(s: Strip, p: Panel, cards: seq<Option<nat>>, created: bool): (r: Strip)
    requires Lockstep(s)
    ensures Lockstep(r)
    decreases |cards|
  {
    if |cards| == 0 then s
    else AppendCards(InsertCard(s, p, |s.widgets|, cards[0], created), p, cards[1..], created)
  }

  /**
   * Appending in turn adds exactly the non-null data objects, in order, when
   * container and widget class are present and widgets are created, and
   * keeps the highlight.
   */
  lemma {:induction false} AppendCardsAddsPresent(s: Strip, p: Panel, cards: seq<Option<nat>>, created: bool)
    requires Lockstep(s)
    ensures AppendCards(s, p, cards, created).highlight == s.highlight
    ensures p.hasContainer && p.hasWidgetClass && created ==>
              AppendCards(s, p, cards, created).data == s.data + Present(cards)
    ensures !(p.hasContainer && p.hasWidgetClass && created) ==> AppendCards(s, p, cards, created) == s
    decreases |cards|
  {
    if |cards| > 0 {
      var t := InsertCard(s, p, |s.widgets|, cards[0], created);
      AppendCardsAddsPresent(t, p, cards[1..], created);
      if p.hasContainer && p.hasWidgetClass && created && cards[0].Some? {
        assert t.data == s.data + [cards[0].value];
      }
      assert Present(cards) == (if cards[0].Some? then [cards[0].value] else []) + Present(cards[1..]);
      if p.hasContainer && p.hasWidgetClass && created {
        if cards[0].Some? {
          assert s.data + Present(cards) == t.data + Present(cards[1..]);
        } else {
          assert t.data == s.data;
        }
      }
    }
  }

  /**
   * SetCards. `created` whether each CreateWidget call succeeds. The old cards
   * are cleared; the new ones are the non-null data objects, in order, and
   * nothing is highlighted.
   */
  function SetCards(s: Strip, p: Panel, cards: seq<Option<nat>>, created: bool): (r: Strip)
    ensures Lockstep(r)
    ensures r.highlight == IndexNone
    ensures p.hasContainer && p.hasWidgetClass && created ==> r.data == Present(cards)
    ensures !(p.hasContainer && p.hasWidgetClass && created) ==> r.data == [] && r.widgets == []
  {
    var cleared := ClearCards(s);
    AppendCardsAddsPresent(cleared, p, cards, created);
    AppendCards(cleared, p, cards, created)
  }
}
