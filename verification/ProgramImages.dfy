/** The memory image of an executable: which pages it has, what their words are, and where it ends. */
module ProgramImages {
  import opened PageTree
  import opened PageNumbers
  import opened AppLoader

  ghost predicate Covers(g: Segment, n: nat) { g.start <= n < g.start + |g.pages| }

  /** A segment stores a word of a page. */
  ghost predicate Sets(g: Segment, n: nat, k: nat) { Covers(g, n) && k in g.pages[n - g.start] }

  /** The pages of an image are those of its segments. */
  lemma {:induction false} ImagePages(segments: seq<Segment>, n: nat)
    ensures Loaded(segments, n).Some? <==> exists i :: 0 <= i < |segments| && Covers(segments[i], n)
  {
    if segments != [] {
      var before := segments[..|segments| - 1];
      ImagePages(before, n);
      if i :| 0 <= i < |before| && Covers(before[i], n) {
        assert Covers(segments[i], n);
      }
      if i :| 0 <= i < |segments| && Covers(segments[i], n) && i < |before| {
        assert Covers(before[i], n);
      }
    }
  }

  /** A word of an image is what the last segment that stores it has there. */
  lemma {:induction false} ImageWord(segments: seq<Segment>, i: nat, n: nat, k: nat)
    requires i < |segments| && k < ENTRIES && Sets(segments[i], n, k) && forall j | i < j < |segments| :: !Sets(segments[j], n, k)
    ensures Loaded(segments, n).Some? && Loaded(segments, n).value[k] == segments[i].pages[n - segments[i].start][k]
  {
    var before := segments[..|segments| - 1];
    if i < |before| {
      assert !Sets(segments[|before|], n, k);
      ImageWord(before, i, n, k);
    }
  }

  /** A word that no segment stores is zero. */
  lemma {:induction false} ImageZero(segments: seq<Segment>, n: nat, k: nat)
    requires k < ENTRIES && Loaded(segments, n).Some? && forall i | 0 <= i < |segments| :: !Sets(segments[i], n, k)
    ensures Loaded(segments, n).value[k] == ZERO
  {
    var before := segments[..|segments| - 1];
    assert !Sets(segments[|before|], n, k);
    if Loaded(before, n).Some? {
      ImageZero(before, n, k);
    }
  }

  ghost predicate Behind(space: Space, n: nat) { forall p | p in space :: p < n }

  /** Page n lies behind all pages of a memory, and no page before n does. */
  ghost predicate RightBehind(space: Space, n: nat) {
    Behind(space, n) && forall m: nat :: Behind(space, m) ==> n <= m
  }

  /** Where an executable ends: behind all its pages, and right behind the last of them, unless it has a segment without pages. */
  ghost predicate EndsAt(segments: seq<Segment>, n: nat) {
    && Behind(LoadedView(segments), n)
    && (segments != [] && (forall g | g in segments :: g.pages != []) ==> RightBehind(LoadedView(segments), n))
  }

  lemma EndRightBehind(segments: seq<Segment>)
    requires Loadable(segments)
    ensures EndsAt(segments, EndPage(segments)) && EndPage(segments) <= STACK_START
  {
    hide Loaded, EndPage;
    forall p | p in LoadedView(segments)
      ensures p < EndPage(segments)
    {
      ImagePages(segments, p);
      var i :| 0 <= i < |segments| && Covers(segments[i], p);
      EndReached(segments, i);
    }
    EmptyImage();
    if segments != [] {
      var i := EndIsSome(segments);
      assert segments[i] in segments;
    }
    if segments != [] && forall g | g in segments :: g.pages != [] {
      var i := EndIsSome(segments);
      assert segments[i] in segments && segments[i].pages != [];
      var last := EndPage(segments) - 1;
      assert Covers(segments[i], last);
      ImagePages(segments, last);
      assert last in LoadedView(segments);
    }
  }

  lemma EmptyImage()
    ensures EndPage([]) == 0
  {
  }

  lemma {:induction false} EndReached(segments: seq<Segment>, i: nat)
    requires i < |segments|
    ensures segments[i].start + |segments[i].pages| <= EndPage(segments)
  {
    if i < |segments| - 1 {
      EndReached(segments[..|segments| - 1], i);
    }
  }

  lemma {:induction false} EndIsSome(segments: seq<Segment>) returns (i: nat)
    requires segments != []
    ensures i < |segments| && segments[i].start + |segments[i].pages| == EndPage(segments)
  {
    i := |segments| - 1;
    if |segments| > 1 && EndPage(segments[..i]) == EndPage(segments) {
      i := EndIsSome(segments[..i]);
    }
  }
}
