/** The software trigger of the fx2lafw driver, as a search over sample streams.

A trigger is a list of stages; stage `j` must match the `j`th of consecutive samples. The driver
sees the stream cut into transfers. It remembers only the partial match it is in the middle of
(the "carry"), so it does not reconsider every window that straddles a cut: when a carried match
fails, the next window tried is the one at the start of the current transfer. This module says
which windows are tried, and proves what the search finds in one transfer and in a whole stream. */
module TriggerScan {
  import opened Bits
  import opened Streams

  type Word16 = x: nat | x < 0x10000

  datatype Stage = Stage(mask: Word16, value: Word16)

  predicate Hits(stage: Stage, sample: Word16) {
    And(sample, stage.mask) == stage.value
  }

  /** The window of `x` that starts at `w` agrees with the pattern as far as `x` reaches. */
  ghost predicate Viable(pattern: seq<Stage>, x: seq<Word16>, w: nat) {
    forall j :: 0 <= j < |pattern| && w + j < |x| ==> Hits(pattern[j], x[w + j])
  }

  /** A complete match at `w`. */
  ghost predicate FullMatch(pattern: seq<Stage>, x: seq<Word16>, w: nat) {
    w + |pattern| <= |x| && Viable(pattern, x, w)
  }

  /** Window starts the driver tries when the samples `x[base..cut]`, a partial match, came with
      earlier transfers: that match, and the windows that begin after the cut. */
  predicate IsStart(base: nat, cut: nat, w: nat) {
    w == base || cut <= w
  }

  /** The first viable window start at or after `from`; `|x|`, the empty window, is always viable. */
  ghost function FirstStart(pattern: seq<Stage>, x: seq<Word16>, base: nat, cut: nat, from: nat): (w: nat)
    requires base <= cut <= |x| && base <= from <= |x| && IsStart(base, cut, from)
    ensures from <= w <= |x| && IsStart(base, cut, w) && Viable(pattern, x, w)
    ensures forall v :: from <= v < w && IsStart(base, cut, v) ==> !Viable(pattern, x, v)
    decreases |x| - from
  {
    if Viable(pattern, x, from) then from
    else FirstStart(pattern, x, base, cut, if from + 1 < cut then cut else from + 1)
  }

  /** What one transfer does to the search: the carry it leaves, or the matched samples and what follows them. */
  datatype ScanResult =
    | Waiting(carry: seq<Word16>)
    | Fired(window: seq<Word16>, rest: seq<Word16>)

  /** What the search yields if it ends at window `w` of `x`. */
  function ResultAt(pattern: seq<Stage>, x: seq<Word16>, w: nat): ScanResult
    requires w <= |x|
  {
    if w + |pattern| <= |x| then Fired(x[w..w + |pattern|], x[w + |pattern|..]) else Waiting(x[w..])
  }

  ghost function Scan(pattern: seq<Stage>, carry: seq<Word16>, data: seq<Word16>): ScanResult {
    ResultAt(pattern, carry + data, FirstStart(pattern, carry + data, 0, |carry|, 0))
  }

  /** The matcher after a stream `seen`: still waiting with the last `carry` samples as a partial
      match, or fired on the window that starts at `start`. */
  datatype Matcher =
    | Armed(seen: seq<Word16>, carry: nat)
    | Triggered(seen: seq<Word16>, start: nat)

  ghost predicate ValidMatcher(pattern: seq<Stage>, m: Matcher) {
    match m
    case Armed(seen, carry) => carry < |pattern| && carry <= |seen| && Viable(pattern, seen, |seen| - carry)
    case Triggered(seen, start) => FullMatch(pattern, seen, start)
  }

  ghost function Feed(pattern: seq<Stage>, m: Matcher, data: seq<Word16>): (r: Matcher)
    requires pattern != [] && ValidMatcher(pattern, m)
    ensures ValidMatcher(pattern, r) && r.seen == m.seen + data
    ensures m.Triggered? ==> r == Triggered(m.seen + data, m.start)
  {
    var stream := m.seen + data;
    match m
    case Triggered(seen, start) =>
      FullMatchInPrefix(pattern, seen, data, start);
      Triggered(stream, start)
    case Armed(seen, carry) =>
      var w := FirstStart(pattern, stream, |seen| - carry, |seen|, |seen| - carry);
      Standing(pattern, stream, w)
  }

  /** The matcher that stands at window `w` of the stream. */
  function Standing(pattern: seq<Stage>, stream: seq<Word16>, w: nat): Matcher
    requires w <= |stream|
  {
    if w + |pattern| <= |stream| then Triggered(stream, w) else Armed(stream, |stream| - w)
  }

  ghost function FeedAll(pattern: seq<Stage>, transfers: seq<seq<Word16>>): (r: Matcher)
    requires pattern != []
    ensures ValidMatcher(pattern, r) && r.seen == Flatten(transfers)
  {
    if transfers == [] then Armed([], 0)
    else Feed(pattern, FeedAll(pattern, transfers[..|transfers| - 1]), transfers[|transfers| - 1])
  }

  // `Feed` is `Scan` on the carried samples.

  lemma ViableShift(pattern: seq<Stage>, x: seq<Word16>, base: nat, w: nat)
    requires base <= |x|
    ensures Viable(pattern, x[base..], w) <==> Viable(pattern, x, base + w)
  {
    assert forall k :: 0 <= k < |x[base..]| ==> x[base..][k] == x[base + k];
    if Viable(pattern, x[base..], w) {
      forall j | 0 <= j < |pattern| && base + w + j < |x| ensures Hits(pattern[j], x[base + w + j]) {
        assert x[base..][w + j] == x[base + w + j];
      }
    }
  }

  lemma {:induction false} FirstStartShift(pattern: seq<Stage>, x: seq<Word16>, base: nat, cut: nat, from: nat)
    requires base <= cut <= |x| && base <= from <= |x| && IsStart(base, cut, from)
    ensures FirstStart(pattern, x[base..], 0, cut - base, from - base) + base == FirstStart(pattern, x, base, cut, from)
    decreases |x| - from
  {
    ViableShift(pattern, x, base, from - base);
    if !Viable(pattern, x, from) {
      FirstStartShift(pattern, x, base, cut, if from + 1 < cut then cut else from + 1);
    }
  }

  lemma SuffixOfSuffix<T>(x: seq<T>, base: nat, w: nat)
    requires base <= |x| && w <= |x| - base
    ensures x[base..][w..] == x[base + w..]
  {
  }

  lemma JoinAfter<T>(seen: seq<T>, data: seq<T>, base: nat)
    requires base <= |seen|
    ensures (seen + data)[base..] == seen[base..] + data
  {
  }

  lemma SplitSuffix<T>(x: seq<T>, w: nat, v: nat)
    requires w <= v <= |x|
    ensures x[w..v] + x[v..] == x[w..]
  {
  }

  /** Both find the same window `w` of the stream. */
  lemma FeedIsScan(pattern: seq<Stage>, m: Matcher, data: seq<Word16>) returns (w: nat)
    requires pattern != [] && ValidMatcher(pattern, m) && m.Armed?
    ensures |m.seen| - m.carry <= w <= |m.seen + data|
    ensures Feed(pattern, m, data) == Standing(pattern, m.seen + data, w)
    ensures Scan(pattern, m.seen[|m.seen| - m.carry..], data) == ResultAt(pattern, m.seen + data, w)
  {
    var base := |m.seen| - m.carry;
    w := FirstStart(pattern, m.seen + data, base, |m.seen|, base);
    ScanOnStream(pattern, m.seen, base, data);
  }

  lemma ScanOnStream(pattern: seq<Stage>, seen: seq<Word16>, base: nat, data: seq<Word16>)
    requires base <= |seen|
    ensures Scan(pattern, seen[base..], data) ==
            ResultAt(pattern, seen + data, FirstStart(pattern, seen + data, base, |seen|, base))
  {
    var stream := seen + data;
    var x := stream[base..];
    var v := FirstStart(pattern, x, 0, |seen| - base, 0);
    calc {
      Scan(pattern, seen[base..], data);
      { ScanOfSuffix(pattern, seen, base, data); }
      ResultAt(pattern, x, v);
      { ResultOfSuffix(pattern, stream, base, v); }
      ResultAt(pattern, stream, base + v);
      { FirstStartShift(pattern, stream, base, |seen|, base); }
      ResultAt(pattern, stream, FirstStart(pattern, stream, base, |seen|, base));
    }
  }

  lemma ScanOfSuffix(pattern: seq<Stage>, seen: seq<Word16>, base: nat, data: seq<Word16>)
    requires base <= |seen|
    ensures var x := (seen + data)[base..];
            Scan(pattern, seen[base..], data) == ResultAt(pattern, x, FirstStart(pattern, x, 0, |seen| - base, 0))
  {
    JoinAfter(seen, data, base);
    assert |seen[base..]| == |seen| - base;
  }

  lemma ResultOfSuffix(pattern: seq<Stage>, stream: seq<Word16>, base: nat, w: nat)
    requires base + w <= |stream|
    ensures ResultAt(pattern, stream[base..], w) == ResultAt(pattern, stream, base + w)
  {
    SuffixOfSuffix(stream, base, w);
    if base + w + |pattern| <= |stream| {
      SuffixOfSuffix(stream, base, w + |pattern|);
      assert stream[base..][w..w + |pattern|] == stream[base + w..base + w + |pattern|];
    }
  }

  // A window that lies inside one transfer is never overlooked.

  /** No complete match lying wholly in `data` starts before the place where the matcher now stands. */
  lemma FeedTriesAllInside(pattern: seq<Stage>, m: Matcher, data: seq<Word16>, w: nat)
    requires pattern != [] && ValidMatcher(pattern, m) && m.Armed?
    requires |m.seen| <= w && w < Frontier(Feed(pattern, m, data))
    ensures !FullMatch(pattern, m.seen + data, w)
  {
    assert IsStart(|m.seen| - m.carry, |m.seen|, w);
  }

  /** Windows before the frontier have been dealt with: it is the window of the partial match, or the match. */
  ghost function Frontier(m: Matcher): int {
    if m.Triggered? then m.start else |m.seen| - m.carry
  }

  /** Window `w` of length `len` lies inside one of the transfers. */
  ghost predicate InsideOne(transfers: seq<seq<Word16>>, w: nat, len: nat) {
    exists i :: 0 <= i < |transfers| && InsideThis(transfers, i, w, len)
  }

  ghost predicate InsideThis(transfers: seq<seq<Word16>>, i: nat, w: nat, len: nat)
    requires i < |transfers|
  {
    |Flatten(transfers[..i])| <= w && w + len <= |Flatten(transfers[..i + 1])|
  }

  /** The driver's guarantee, for every stream and every way of cutting it: the window it fires on
      is a complete match, and no complete match lying inside one transfer comes earlier (none at
      all, if it has not fired). */
  lemma FiresOnFirstInside(pattern: seq<Stage>, transfers: seq<seq<Word16>>)
    requires pattern != []
    ensures var r := FeedAll(pattern, transfers);
            && (r.Triggered? ==> FullMatch(pattern, Flatten(transfers), r.start))
            && forall w: nat :: InsideOne(transfers, w, |pattern|) && FullMatch(pattern, Flatten(transfers), w)
                                ==> r.Triggered? && r.start <= w
  {
    forall w: nat | InsideOne(transfers, w, |pattern|) && FullMatch(pattern, Flatten(transfers), w)
      ensures var r := FeedAll(pattern, transfers); r.Triggered? && r.start <= w
    {
      var i :| 0 <= i < |transfers| && InsideThis(transfers, i, w, |pattern|);
      NotLaterThanInside(pattern, transfers, i, w);
    }
  }

  lemma {:induction false} NotLaterThanInside(pattern: seq<Stage>, transfers: seq<seq<Word16>>, i: nat, w: nat)
    requires pattern != [] && i < |transfers| && InsideThis(transfers, i, w, |pattern|)
    requires FullMatch(pattern, Flatten(transfers), w)
    ensures var r := FeedAll(pattern, transfers); r.Triggered? && r.start <= w
    decreases |transfers|
  {
    var init, last := transfers[..|transfers| - 1], transfers[|transfers| - 1];
    var m := FeedAll(pattern, init);
    if i < |init| {
      assert transfers[..i] == init[..i] && transfers[..i + 1] == init[..i + 1];
      FlattenPrefix(init, i + 1);
      FullMatchInPrefix(pattern, m.seen, last, w);
      NotLaterThanInside(pattern, init, i, w);
    } else {
      assert transfers[..i] == init && transfers[..i + 1] == transfers;
      if m.Armed? && !(Frontier(FeedAll(pattern, transfers)) <= w) {
        FeedTriesAllInside(pattern, m, last, w);
      }
    }
  }

  lemma FullMatchInPrefix(pattern: seq<Stage>, x: seq<Word16>, more: seq<Word16>, w: nat)
    requires w + |pattern| <= |x|
    ensures FullMatch(pattern, x + more, w) <==> FullMatch(pattern, x, w)
  {
    assert forall k :: 0 <= k < |x| ==> (x + more)[k] == x[k];
    assert FullMatch(pattern, x + more, w) ==> forall j :: 0 <= j < |pattern| ==> Hits(pattern[j], (x + more)[w + j]);
  }

  /** A first transfer that is itself a partial match is carried whole. */
  lemma CarriedWhole(pattern: seq<Stage>, first: seq<Word16>)
    requires |first| < |pattern|
    requires Viable(pattern, first, 0)
    ensures FeedAll(pattern, [first]) == Armed(first, |first|)
  {
    var none: seq<seq<Word16>> := [];
    assert [first][..0] == none;
    assert FeedAll(pattern, none) == Armed([], 0);
    assert [] + first == first;
    assert FirstStart(pattern, first, 0, 0, 0) == 0;
  }

  /** A stream that starts with a complete match is matched there. */
  lemma {:induction false} MatchAtStart(pattern: seq<Stage>, transfers: seq<seq<Word16>>)
    requires pattern != [] && Viable(pattern, Flatten(transfers), 0)
    ensures FeedAll(pattern, transfers) == Standing(pattern, Flatten(transfers), 0)
    decreases |transfers|
  {
    if transfers != [] {
      var init, last := transfers[..|transfers| - 1], transfers[|transfers| - 1];
      var x := Flatten(init);
      assert forall k :: 0 <= k < |x| ==> (x + last)[k] == x[k];
      MatchAtStart(pattern, init);
    }
  }
}
