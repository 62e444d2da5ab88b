/** When is the fx2lafw trigger exact?

The driver's comment promises that a trigger on 0001 is found in 00001. Inside one transfer that
holds for every pattern (`TriggerScan.FiresOnFirstInside`). Across a cut between transfers it does
not: the samples of a failed partial match are gone, so the windows that began among them are never
tried. This module shows a stream on which the trigger is lost, and decides, from the stages alone,
for which patterns that can happen. */
module TriggerExact {
  import opened Bits
  import opened Streams
  import opened TriggerScan

  /** The matcher did on this stream what an uninterrupted search would do: it fired on the first
      complete match, and it is still waiting only if there is none. */
  ghost predicate Exact(pattern: seq<Stage>, transfers: seq<seq<Word16>>)
    requires pattern != []
  {
    var stream := Flatten(transfers);
    match FeedAll(pattern, transfers)
    case Armed(_, _) => forall w: nat :: !FullMatch(pattern, stream, w)
    case Triggered(_, start) => forall w: nat :: FullMatch(pattern, stream, w) ==> start <= w
  }

  /** Some sample meets both stages. */
  ghost predicate Compatible(a: Stage, b: Stage) {
    exists s :: Hits(a, s) && Hits(b, s)
  }

  /** Every sample that meets stage `a` meets stage `b`. */
  ghost predicate Implies(a: Stage, b: Stage) {
    forall s :: Hits(a, s) ==> Hits(b, s)
  }

  /** A cut after `cut` samples of a partial match can hide a match that began `shift` samples later:
      the carried samples can belong to both, and the later match can make the carried one fail. */
  ghost predicate HiddenAt(pattern: seq<Stage>, cut: nat, shift: nat) {
    && 1 <= shift < cut < |pattern|
    && (forall j :: shift <= j < cut ==> Compatible(pattern[j], pattern[j - shift]))
    && (exists j :: cut <= j < |pattern| && !Implies(pattern[j - shift], pattern[j]))
  }

  ghost predicate CanMiss(pattern: seq<Stage>) {
    exists cut: nat, shift: nat :: HiddenAt(pattern, cut, shift)
  }

  /** Each stage asks for a value inside its mask, as the probe configuration arranges. */
  ghost predicate WellFormed(pattern: seq<Stage>) {
    pattern != [] && forall j :: 0 <= j < |pattern| ==> Hits(pattern[j], pattern[j].value)
  }

  // The two tests can be read off the masks.

  predicate AgreeOnCommonBits(a: Stage, b: Stage) {
    And(a.value, b.mask) == And(b.value, a.mask)
  }

  predicate Covers(a: Stage, b: Stage) {
    And(a.mask, b.mask) == b.mask && And(a.value, b.mask) == b.value
  }

  predicate HiddenByMasks(pattern: seq<Stage>, cut: nat, shift: nat) {
    && 1 <= shift < cut < |pattern|
    && (forall j :: shift <= j < cut ==> AgreeOnCommonBits(pattern[j], pattern[j - shift]))
    && (exists j :: cut <= j < |pattern| && !Covers(pattern[j - shift], pattern[j]))
  }

  /** The condition a caller can compute: two loops over at most four stages. */
  predicate CanMissByMasks(pattern: seq<Stage>) {
    exists cut: nat, shift: nat :: cut < |pattern| && shift < cut && HiddenByMasks(pattern, cut, shift)
  }

  lemma CanMissIsDecidable(pattern: seq<Stage>)
    requires WellFormed(pattern)
    ensures CanMiss(pattern) <==> CanMissByMasks(pattern)
  {
    forall cut: nat, shift: nat ensures HiddenAt(pattern, cut, shift) <==> HiddenByMasks(pattern, cut, shift) {
      if 1 <= shift < cut < |pattern| {
        forall j | shift <= j < |pattern|
          ensures Compatible(pattern[j], pattern[j - shift]) <==> AgreeOnCommonBits(pattern[j], pattern[j - shift])
          ensures Implies(pattern[j - shift], pattern[j]) <==> Covers(pattern[j - shift], pattern[j])
        {
          CompatibleByMasks(pattern[j], pattern[j - shift]);
          ImpliesByMasks(pattern[j - shift], pattern[j]);
        }
      }
    }
  }

  /** A sample meets a stage exactly if it has the value's bits wherever the mask has one. */
  lemma HitsByBits(a: Stage, s: Word16)
    requires Hits(a, a.value)
    ensures Hits(a, s) <==> AgreeWhere(a.mask, s, a.value)
    ensures forall i: nat :: Bit(a.value, i) ==> Bit(a.mask, i)
  {
    AgreeUnderMask(s, a.value, a.mask);
    forall i: nat | Bit(a.value, i) ensures Bit(a.mask, i) {
      BitOfAnd(a.value, a.mask, i);
    }
  }

  ghost predicate AgreeOnCommon(a: Stage, b: Stage) {
    forall i: nat :: Bit(a.mask, i) && Bit(b.mask, i) ==> (Bit(a.value, i) <==> Bit(b.value, i))
  }

  lemma AgreeByBits(a: Stage, b: Stage)
    requires Hits(a, a.value) && Hits(b, b.value)
    ensures AgreeOnCommonBits(a, b) <==> AgreeOnCommon(a, b)
  {
    HitsByBits(a, a.value);
    HitsByBits(b, b.value);
    var x, y := And(a.value, b.mask), And(b.value, a.mask);
    forall i: nat
      ensures Bit(x, i) <==> Bit(a.value, i) && Bit(b.mask, i)
      ensures Bit(y, i) <==> Bit(b.value, i) && Bit(a.mask, i)
    {
      BitOfAnd(a.value, b.mask, i);
      BitOfAnd(b.value, a.mask, i);
    }
    if AgreeOnCommon(a, b) {
      SameBits(x, y);
    }
  }

  lemma CompatibleByMasks(a: Stage, b: Stage)
    requires Hits(a, a.value) && Hits(b, b.value)
    ensures Compatible(a, b) <==> AgreeOnCommonBits(a, b)
  {
    AgreeByBits(a, b);
    if Compatible(a, b) {
      var s :| Hits(a, s) && Hits(b, s);
      HitsByBits(a, s);
      HitsByBits(b, s);
    }
    if AgreeOnCommonBits(a, b) {
      JoinedValueHits(a, b);
    }
  }

  lemma JoinedValueHits(a: Stage, b: Stage)
    requires Hits(a, a.value) && Hits(b, b.value) && AgreeOnCommonBits(a, b)
    ensures Compatible(a, b)
  {
    AgreeByBits(a, b);
    var s := Or(a.value, b.value);
    forall i: nat ensures Bit(s, i) <==> Bit(a.value, i) || Bit(b.value, i) {
      BitOfOr(a.value, b.value, i);
    }
    IsWord16(s, a.value, b.value);
    HitsByBits(a, s);
    HitsByBits(b, s);
    assert Hits(a, s) && Hits(b, s);
  }

  /** A word whose bits come from two 16-bit words is one itself. */
  lemma IsWord16(s: nat, x: Word16, y: Word16)
    requires forall i: nat :: Bit(s, i) ==> Bit(x, i) || Bit(y, i)
    ensures s < 0x10000
  {
    Pow2Of16();
    forall i | 16 <= i ensures !Bit(s, i) {
      NoHighBits(x, 16, i);
      NoHighBits(y, 16, i);
    }
    BelowPow2(s, 16);
  }

  ghost predicate InsideWhere(a: Stage, b: Stage) {
    forall i: nat :: Bit(b.mask, i) ==> Bit(a.mask, i) && (Bit(a.value, i) <==> Bit(b.value, i))
  }

  lemma CoversByBits(a: Stage, b: Stage)
    requires Hits(a, a.value) && Hits(b, b.value)
    ensures Covers(a, b) <==> InsideWhere(a, b)
  {
    HitsByBits(b, a.value);
    forall i: nat ensures Bit(And(a.mask, b.mask), i) <==> Bit(a.mask, i) && Bit(b.mask, i) {
      BitOfAnd(a.mask, b.mask, i);
    }
    if InsideWhere(a, b) {
      SameBits(And(a.mask, b.mask), b.mask);
    }
  }

  lemma ImpliesByMasks(a: Stage, b: Stage)
    requires Hits(a, a.value) && Hits(b, b.value)
    ensures Implies(a, b) <==> Covers(a, b)
  {
    CoversByBits(a, b);
    if Covers(a, b) {
      forall s | Hits(a, s) ensures Hits(b, s) {
        HitsByBits(a, s);
        HitsByBits(b, s);
      }
    } else {
      var i: nat :| Bit(b.mask, i) && !(Bit(a.mask, i) && (Bit(a.value, i) <==> Bit(b.value, i)));
      var s := Escape(a, b, i);
    }
  }

  /** A sample that meets `a` but differs from `b` in bit `i`. */
  lemma Escape(a: Stage, b: Stage, i: nat) returns (s: Word16)
    requires Hits(a, a.value) && Hits(b, b.value)
    requires Bit(b.mask, i) && !(Bit(a.mask, i) && (Bit(a.value, i) <==> Bit(b.value, i)))
    ensures Hits(a, s) && !Hits(b, s)
  {
    HitsByBits(a, a.value);
    if Bit(b.value, i) || Bit(a.value, i) {
      s := a.value;
      HitsByBits(b, s);
      assert Bit(a.value, i) != Bit(b.value, i);
    } else {
      var x := SetBit(a.value, i);
      forall j: nat ensures Bit(x, j) <==> i == j || Bit(a.value, j) {
        BitOfSetBit(a.value, i, j);
      }
      IsWord16(x, a.value, b.mask);
      s := x;
      HitsByBits(a, s);
      HitsByBits(b, s);
      assert Bit(s, i) && !Bit(b.value, i);
    }
  }

  // Patterns that cannot be hidden: the search is exact for every stream and every cut.

  /** Nothing before the frontier can be (or become) a match. */
  ghost predicate NothingBehind(pattern: seq<Stage>, m: Matcher) {
    forall w: nat :: w < Frontier(m) ==> !Viable(pattern, m.seen, w)
  }

  lemma NotViableForever(pattern: seq<Stage>, x: seq<Word16>, more: seq<Word16>, w: nat)
    requires !Viable(pattern, x, w)
    ensures !Viable(pattern, x + more, w)
  {
    var j :| 0 <= j < |pattern| && w + j < |x| && !Hits(pattern[j], x[w + j]);
    assert (x + more)[w + j] == x[w + j];
  }

  /** If the carried match, the window at `base`, fails, the windows that began inside it fail too. */
  lemma SkippedAreDead(pattern: seq<Stage>, x: seq<Word16>, base: nat, cut: nat, w: nat)
    requires !CanMiss(pattern)
    requires base < w < cut < base + |pattern| && cut <= |x|
    requires Viable(pattern, x[..cut], base) && !Viable(pattern, x, base)
    ensures !Viable(pattern, x, w)
  {
    var k :| 0 <= k < |pattern| && base + k < |x| && !Hits(pattern[k], x[base + k]);
    assert forall i :: 0 <= i < cut ==> x[..cut][i] == x[i];
    assert cut <= base + k;
    if Viable(pattern, x, w) {
      var shift := w - base;
      forall j | shift <= j < cut - base ensures Compatible(pattern[j], pattern[j - shift]) {
        assert x[..cut][base + j] == x[base + j];
        assert Hits(pattern[j], x[base + j]) && Hits(pattern[j - shift], x[w + (j - shift)]);
      }
      assert Hits(pattern[k - shift], x[w + (k - shift)]);
      assert !Implies(pattern[k - shift], pattern[k]);
      assert HiddenAt(pattern, cut - base, shift);
    }
  }

  lemma FeedLeavesNothingBehind(pattern: seq<Stage>, m: Matcher, data: seq<Word16>)
    requires pattern != [] && ValidMatcher(pattern, m) && m.Armed?
    requires !CanMiss(pattern) && NothingBehind(pattern, m)
    ensures NothingBehind(pattern, Feed(pattern, m, data))
  {
    var base, cut, stream := |m.seen| - m.carry, |m.seen|, m.seen + data;
    assert stream[..cut] == m.seen;
    forall w: nat | w < Frontier(Feed(pattern, m, data)) ensures !Viable(pattern, stream, w) {
      if w < base {
        NotViableForever(pattern, m.seen, data, w);
      } else if !IsStart(base, cut, w) {
        assert IsStart(base, cut, base);
        SkippedAreDead(pattern, stream, base, cut, w);
      }
    }
  }

  lemma {:induction false} ExactIfCannotMiss(pattern: seq<Stage>, transfers: seq<seq<Word16>>)
    requires pattern != [] && !CanMiss(pattern)
    ensures NothingBehind(pattern, FeedAll(pattern, transfers))
    ensures Exact(pattern, transfers)
    decreases |transfers|
  {
    if transfers != [] {
      var init, last := transfers[..|transfers| - 1], transfers[|transfers| - 1];
      var m := FeedAll(pattern, init);
      ExactIfCannotMiss(pattern, init);
      if m.Armed? {
        FeedLeavesNothingBehind(pattern, m, last);
      } else {
        forall w: nat | w < m.start ensures !Viable(pattern, m.seen + last, w) {
          NotViableForever(pattern, m.seen, last, w);
        }
      }
    }
  }

  // Patterns that can be hidden: a stream, and a cut, on which the driver is not exact.

  /** A sample for place `j` of the hidden stream: it belongs to the shifted match, and to the
      first one before the cut; at place `bad` it breaks the first one. */
  ghost predicate Fits(pattern: seq<Stage>, cut: nat, shift: nat, bad: nat, j: nat, s: Word16)
    requires 1 <= shift < cut < |pattern|
  {
    && (j < cut ==> Hits(pattern[j], s))
    && (shift <= j < shift + |pattern| ==> Hits(pattern[j - shift], s))
    && (j == bad < |pattern| ==> !Hits(pattern[j], s))
  }

  lemma SomeSampleFits(pattern: seq<Stage>, cut: nat, shift: nat, bad: nat, j: nat) returns (s: Word16)
    requires WellFormed(pattern) && HiddenAt(pattern, cut, shift)
    requires cut <= bad < |pattern| && !Implies(pattern[bad - shift], pattern[bad])
    ensures Fits(pattern, cut, shift, bad, j, s)
  {
    if j < shift {
      s := pattern[j].value;
    } else if j < cut {
      assert Compatible(pattern[j], pattern[j - shift]);
      s :| Hits(pattern[j], s) && Hits(pattern[j - shift], s);
    } else if j == bad {
      s :| Hits(pattern[bad - shift], s) && !Hits(pattern[bad], s);
    } else if j < shift + |pattern| {
      s := pattern[j - shift].value;
    } else {
      s := 0;
    }
  }

  lemma HiddenStream(pattern: seq<Stage>, cut: nat, shift: nat, bad: nat, n: nat) returns (x: seq<Word16>)
    requires WellFormed(pattern) && HiddenAt(pattern, cut, shift)
    requires cut <= bad < |pattern| && !Implies(pattern[bad - shift], pattern[bad])
    ensures |x| == n && forall j :: 0 <= j < n ==> Fits(pattern, cut, shift, bad, j, x[j])
    decreases n
  {
    if n == 0 {
      x := [];
    } else {
      x := HiddenStream(pattern, cut, shift, bad, n - 1);
      var s := SomeSampleFits(pattern, cut, shift, bad, n - 1);
      x := x + [s];
    }
  }

  /** After a cut inside a partial match that then fails, the driver resumes at the cut. */
  lemma ResumesAtCut(pattern: seq<Stage>, first: seq<Word16>, second: seq<Word16>)
    requires |first| < |pattern| && Viable(pattern, first, 0) && !Viable(pattern, first + second, 0)
    ensures var r := FeedAll(pattern, [first, second]); r.Triggered? ==> |first| <= r.start
  {
    FlattenTwo(first, second);
    assert [first, second][..1] == [first];
    CarriedWhole(pattern, first);
    var m := Armed(first, |first|);
    assert FeedAll(pattern, [first, second]) == Feed(pattern, m, second);
    assert first[0..] == first;
  }

  /** Two transfers on which the driver overlooks the first match. */
  lemma MissesHidden(pattern: seq<Stage>, cut: nat, shift: nat) returns (transfers: seq<seq<Word16>>)
    requires WellFormed(pattern) && HiddenAt(pattern, cut, shift)
    ensures |transfers| == 2 && !Exact(pattern, transfers)
  {
    var bad :| cut <= bad < |pattern| && !Implies(pattern[bad - shift], pattern[bad]);
    var x := HiddenStream(pattern, cut, shift, bad, shift + |pattern|);
    HiddenStreamHides(pattern, cut, shift, bad, x);
    transfers := CutStream(pattern, x, cut, shift);
  }

  lemma CutStream(pattern: seq<Stage>, x: seq<Word16>, cut: nat, shift: nat) returns (transfers: seq<seq<Word16>>)
    requires shift < cut < |pattern| && cut <= |x|
    requires FullMatch(pattern, x, shift) && !Viable(pattern, x, 0) && Viable(pattern, x[..cut], 0)
    ensures |transfers| == 2 && !Exact(pattern, transfers)
  {
    var first, second := x[..cut], x[cut..];
    assert first + second == x;
    transfers := [first, second];
    NotExactWhenSkipped(pattern, first, second, shift);
  }

  lemma NotExactWhenSkipped(pattern: seq<Stage>, first: seq<Word16>, second: seq<Word16>, shift: nat)
    requires shift < |first| < |pattern| && Viable(pattern, first, 0)
    requires !Viable(pattern, first + second, 0) && FullMatch(pattern, first + second, shift)
    ensures !Exact(pattern, [first, second])
  {
    ResumesAtCut(pattern, first, second);
    FlattenTwo(first, second);
    assert FullMatch(pattern, Flatten([first, second]), shift);
  }

  lemma HiddenStreamHides(pattern: seq<Stage>, cut: nat, shift: nat, bad: nat, x: seq<Word16>)
    requires 1 <= shift < cut <= bad < |pattern| && |x| == shift + |pattern|
    requires forall j :: 0 <= j < |x| ==> Fits(pattern, cut, shift, bad, j, x[j])
    ensures FullMatch(pattern, x, shift) && !Viable(pattern, x, 0) && Viable(pattern, x[..cut], 0)
  {
    forall j | 0 <= j < |pattern| && shift + j < |x| ensures Hits(pattern[j], x[shift + j]) {
      assert Fits(pattern, cut, shift, bad, shift + j, x[shift + j]);
    }
    assert !Hits(pattern[bad], x[0 + bad]);
    forall j | 0 <= j < |pattern| && 0 + j < cut ensures Hits(pattern[j], x[..cut][0 + j]) {
      assert Fits(pattern, cut, shift, bad, j, x[j]);
    }
  }

  lemma FlattenTwo(first: seq<Word16>, second: seq<Word16>)
    ensures Flatten([first]) == first && Flatten([first, second]) == first + second
  {
    var none: seq<seq<Word16>> := [];
    assert [first][..0] == none && [first, second][..1] == [first];
  }

  /** The trigger is exact on every stream and every way of cutting it if and only if no cut can
      hide a match, which `CanMissByMasks` reads off the stages. */
  lemma ExactIffCannotMiss(pattern: seq<Stage>)
    requires WellFormed(pattern)
    ensures (forall transfers :: Exact(pattern, transfers)) <==> !CanMissByMasks(pattern)
  {
    CanMissIsDecidable(pattern);
    if CanMiss(pattern) {
      var cut: nat, shift: nat :| HiddenAt(pattern, cut, shift);
      var transfers := MissesHidden(pattern, cut, shift);
    } else {
      forall transfers ensures Exact(pattern, transfers) {
        ExactIfCannotMiss(pattern, transfers);
      }
    }
  }

  /** Patterns of one or two stages are always exact: the carry is at most one sample. */
  lemma ShortPatternsAreExact(pattern: seq<Stage>, transfers: seq<seq<Word16>>)
    requires 1 <= |pattern| <= 2
    ensures Exact(pattern, transfers)
  {
    assert !CanMiss(pattern);
    ExactIfCannotMiss(pattern, transfers);
  }

  const LOW := Stage(1, 0)
  const HIGH := Stage(1, 1)

  /** The example of the driver's comment: a trigger on 0001 is lost in 00001 when a transfer ends
      after the second sample. */
  lemma CommentExampleIsMissed()
    ensures var pattern, transfers := [LOW, LOW, LOW, HIGH], [[0, 0], [0, 0, 1]];
            && FullMatch(pattern, Flatten(transfers), 1)
            && FeedAll(pattern, transfers).Armed?
  {
    var pattern: seq<Stage>, first: seq<Word16>, second: seq<Word16> := [LOW, LOW, LOW, HIGH], [0, 0], [0, 0, 1];
    var x: seq<Word16> := [0, 0, 0, 0, 1];
    FlattenTwo(first, second);
    assert first + second == x;
    HitsOfOneBit();
    ViableInSmall(pattern, first, x);
    ResumesAtCut(pattern, first, second);
  }

  lemma ViableInSmall(pattern: seq<Stage>, first: seq<Word16>, x: seq<Word16>)
    requires pattern == [LOW, LOW, LOW, HIGH] && first == [0, 0] && x == [0, 0, 0, 0, 1]
    requires Hits(LOW, 0) && Hits(HIGH, 1) && !Hits(HIGH, 0)
    ensures Viable(pattern, first, 0) && !Viable(pattern, x, 0) && FullMatch(pattern, x, 1)
  {
    assert !Hits(pattern[3], x[0 + 3]);
  }

  lemma HitsOfOneBit()
    ensures Hits(LOW, 0) && !Hits(LOW, 1) && Hits(HIGH, 1) && !Hits(HIGH, 0)
  {
  }
}
