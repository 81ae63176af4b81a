/** The readable buckets of a level sequence in lookup order, and what a prefix
    of them decides. */
module Slots {
  import opened Wire
  import opened Buckets
  import opened Lists

  /** Current then snapshot of each level, youngest level first. */
  function SlotsFrom(levels: seq<Level>, i: nat): (slots: seq<Bucket>)
    requires i <= |levels|
    ensures |slots| == 2 * (|levels| - i)
    decreases |levels| - i
  {
    if i == |levels| then [] else [levels[i].curr, levels[i].snap] + SlotsFrom(levels, i + 1)
  }

  function SlotsOf(levels: seq<Level>): seq<Bucket> { SlotsFrom(levels, 0) }

  /** Youngest-wins resolution: the first slot naming an identity decides it. */
  function Resolved(slots: seq<Bucket>): Effects {
    if slots == [] then map[] else Resolved(slots[1..]) + View(slots[0])
  }

  lemma {:induction false} SlotsResolve(levels: seq<Level>, i: nat)
    requires i <= |levels|
    ensures Resolved(SlotsFrom(levels, i)) == VisibleFrom(levels, i)
    decreases |levels| - i
  {
    hide View;
    if i < |levels| {
      SlotsResolve(levels, i + 1);
      var slots := SlotsFrom(levels, i);
      assert slots[1..][1..] == SlotsFrom(levels, i + 1) && slots[1..][0] == levels[i].snap;
    }
  }

  /** Older slots only fill in what the younger ones left undecided. */
  lemma {:induction false} ResolvedSplit(a: seq<Bucket>, b: seq<Bucket>)
    ensures Resolved(a + b) == Resolved(b) + Resolved(a)
  {
    hide View;
    if a == [] {
      assert a + b == b;
    } else {
      ResolvedSplit(a[1..], b);
      assert (a + b)[1..] == a[1..] + b;
      OverlayAssociative(Resolved(b), Resolved(a[1..]), View(a[0]));
    }
  }

  lemma {:induction false} ResolvedOne(b: Bucket)
    ensures Resolved([b]) == View(b)
  {
    assert map[] + View(b) == View(b);
  }

  lemma ResolvedSnoc(slots: seq<Bucket>, i: nat)
    requires i < |slots|
    ensures Resolved(slots[..i + 1]) == View(slots[i]) + Resolved(slots[..i])
  {
    hide View;
    TakeGrows(slots, i);
    ResolvedSplit(slots[..i], [slots[i]]);
    ResolvedOne(slots[i]);
  }
}
