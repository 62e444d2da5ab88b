/** The byte stream of the OpenBench Logic Sniffer: words of as many bytes as channel groups are
enabled; with run-length encoding, a word whose top bit is set is the repeat count for the next sample. */
module OlsStream {
  import opened Bits
  import opened Bytes
  import opened Streams

  /** A 32-bit sample, four bytes. */
  type Frame = s: seq<Byte> | |s| == 4 witness [0, 0, 0, 0]

  /** Which of the four channel groups are enabled, and whether samples are run-length encoded. */
  datatype Format = Format(enabled: seq<bool>, rle: bool) {
    predicate Valid() {
      |enabled| == 4 && Channels() >= 1
    }

    function Channels(): nat {
      Enabled(enabled)
    }
  }

  function Enabled(groups: seq<bool>): (n: nat)
    ensures n <= |groups|
  {
    if groups == [] then 0 else Enabled(groups[..|groups| - 1]) + (if groups[|groups| - 1] then 1 else 0)
  }

  lemma {:induction false} EnabledPrefix(groups: seq<bool>, i: nat)
    requires i <= |groups|
    ensures Enabled(groups[..i]) <= Enabled(groups)
    ensures i < |groups| && groups[i] ==> Enabled(groups[..i]) < Enabled(groups)
    decreases |groups|
  {
    if i == |groups| {
      assert groups[..i] == groups;
    } else {
      var init := groups[..|groups| - 1];
      assert groups[..i] == init[..i];
      EnabledPrefix(init, i);
    }
  }

  /** A received word, spread over the groups it was sent for; the others read 0. */
  function Spread(format: Format, word: seq<Byte>): (frame: Frame)
    requires format.Valid() && |word| == format.Channels()
  {
    var byte := (i: nat) requires i < 4 =>
      if format.enabled[i] then EnabledPrefix(format.enabled, i); word[Enabled(format.enabled[..i])] else 0;
    [byte(0), byte(1), byte(2), byte(3)]
  }

  function Repeat(frame: Frame, n: nat): (frames: seq<Frame>)
    ensures |frames| == n && forall i :: 0 <= i < n ==> frames[i] == frame
  {
    seq(n, _ => frame)
  }

  // Bytes to words.

  /** The whole words of a byte stream, and the bytes of the word begun. */
  datatype Chopped = Chopped(words: seq<seq<Byte>>, pending: seq<Byte>)

  function Chop(n: nat, bytes: seq<Byte>): (c: Chopped)
    requires n >= 1
    ensures |c.pending| < n && AllOfSize(n, c.words)
  {
    if bytes == [] then Chopped([], []) else ChopByte(n, Chop(n, bytes[..|bytes| - 1]), bytes[|bytes| - 1])
  }

  function ChopByte(n: nat, c: Chopped, byte: Byte): Chopped {
    var pending := c.pending + [byte];
    if |pending| == n then Chopped(c.words + [pending], []) else Chopped(c.words, pending)
  }

  lemma ChopSnoc(n: nat, bytes: seq<Byte>, byte: Byte)
    requires n >= 1
    ensures Chop(n, bytes + [byte]) == ChopByte(n, Chop(n, bytes), byte)
  {
    assert (bytes + [byte])[..|bytes|] == bytes;
  }

  lemma {:induction false} ChopPart(n: nat, bytes: seq<Byte>, part: seq<Byte>)
    requires n >= 1 && |part| < n && Chop(n, bytes).pending == []
    ensures Chop(n, bytes + part) == Chopped(Chop(n, bytes).words, part)
    decreases |part|
  {
    if part == [] {
      assert bytes + part == bytes;
    } else {
      var init, last := part[..|part| - 1], part[|part| - 1];
      calc {
        Chop(n, bytes + part);
        { LastLast(bytes, part); }
        Chop(n, (bytes + init) + [last]);
        { ChopSnoc(n, bytes + init, last); }
        ChopByte(n, Chop(n, bytes + init), last);
        { ChopPart(n, bytes, init); }
        ChopByte(n, Chopped(Chop(n, bytes).words, init), last);
        { assert init + [last] == part; }
        Chopped(Chop(n, bytes).words, part);
      }
    }
  }

  lemma ChopWord(n: nat, bytes: seq<Byte>, word: seq<Byte>)
    requires n >= 1 && |word| == n && Chop(n, bytes).pending == []
    ensures Chop(n, bytes + word) == Chopped(Chop(n, bytes).words + [word], [])
  {
    var init, last := word[..n - 1], word[n - 1];
    ChopPart(n, bytes, init);
    assert Chop(n, bytes + word) == ChopByte(n, Chop(n, bytes + init), last) by {
      LastLast(bytes, word);
      ChopSnoc(n, bytes + init, last);
    }
    assert init + [last] == word;
  }

  /** Words sent one after another are received as those words. */
  lemma {:induction false} ChopFlattened(n: nat, words: seq<seq<Byte>>)
    requires n >= 1 && AllOfSize(n, words)
    ensures Chop(n, Flatten(words)) == Chopped(words, [])
    decreases |words|
  {
    if words != [] {
      var init, last := words[..|words| - 1], words[|words| - 1];
      ChopFlattened(n, init);
      ChopWord(n, Flatten(init), last);
      assert init + [last] == words;
    }
  }

  // Words to samples.

  /** The repeat count announced for the next sample, and the samples decoded. */
  datatype Decoded = Decoded(count: nat, samples: seq<Frame>)

  predicate IsCount(format: Format, word: seq<Byte>) {
    format.rle && word != [] && word[|word| - 1] >= 0x80
  }

  function CountOf(word: seq<Byte>): nat
    requires word != [] && word[|word| - 1] >= 0x80
  {
    Word(word[..|word| - 1] + [word[|word| - 1] - 0x80])
  }

  /** A word of another length than the format's does not occur, and would be ignored. */
  function TakeWord(format: Format, d: Decoded, word: seq<Byte>): Decoded
    requires format.Valid()
  {
    if |word| != format.Channels() then d
    else if IsCount(format, word) then Decoded(CountOf(word), d.samples)
    else Decoded(0, d.samples + Repeat(Spread(format, word), d.count + 1))
  }

  function DecodeWords(format: Format, words: seq<seq<Byte>>): Decoded
    requires format.Valid()
  {
    if words == [] then Decoded(0, [])
    else TakeWord(format, DecodeWords(format, words[..|words| - 1]), words[|words| - 1])
  }

  /** The samples encoded in a byte stream; a last word that is not complete does not count. */
  function Expansion(format: Format, bytes: seq<Byte>): seq<Frame>
    requires format.Valid()
  {
    DecodeWords(format, Chop(format.Channels(), bytes).words).samples
  }

  // Groups.

  /** A group that is enabled reads the byte sent for it, the others read 0. */
  lemma SpreadRestoresGroups(format: Format, frame: Frame)
    requires format.Valid()
    requires forall i :: 0 <= i < 4 && !format.enabled[i] ==> frame[i] == 0
    ensures |Gather(format.enabled, frame)| == format.Channels()
    ensures Spread(format, Gather(format.enabled, frame)) == frame
  {
    forall i | 0 <= i < 4 && format.enabled[i]
      ensures Enabled(format.enabled[..i]) < |Gather(format.enabled, frame)|
      ensures Gather(format.enabled, frame)[Enabled(format.enabled[..i])] == frame[i]
    {
      GatherAt(format.enabled, frame, i);
    }
    GatherLength(format.enabled, frame);
  }

  /** The bytes of the enabled groups: what the device sends of a sample. */
  function Gather(groups: seq<bool>, bytes: seq<Byte>): seq<Byte>
    requires |groups| == |bytes|
  {
    if groups == [] then []
    else
      var n := |groups| - 1;
      Gather(groups[..n], bytes[..n]) + (if groups[n] then [bytes[n]] else [])
  }

  lemma {:induction false} GatherLength(groups: seq<bool>, bytes: seq<Byte>)
    requires |groups| == |bytes|
    ensures |Gather(groups, bytes)| == Enabled(groups)
  {
    if groups != [] {
      GatherLength(groups[..|groups| - 1], bytes[..|groups| - 1]);
    }
  }

  lemma {:induction false} GatherAt(groups: seq<bool>, bytes: seq<Byte>, i: nat)
    requires |groups| == |bytes| && i < |groups| && groups[i]
    ensures Enabled(groups[..i]) < |Gather(groups, bytes)|
    ensures Gather(groups, bytes)[Enabled(groups[..i])] == bytes[i]
    decreases |groups|
  {
    var n := |groups| - 1;
    GatherLength(groups[..n], bytes[..n]);
    if i < n {
      assert groups[..n][..i] == groups[..i];
      GatherAt(groups[..n], bytes[..n], i);
    }
  }

  // The sender's side.

  /** A sample the device sees, and the repeat counts sent before it, of which the last one counts. */
  datatype Run = Run(counts: seq<nat>, frame: Frame)

  /** The word that is sent for the sample. */
  function WordOf(format: Format, frame: Frame): (word: seq<Byte>)
    requires format.Valid()
    ensures |word| == format.Channels()
  {
    GatherLength(format.enabled, frame);
    Gather(format.enabled, frame)
  }

  /** Groups that are not enabled see nothing. With run-length encoding the top bit of a word is not used for
      samples; without it there are no counts, and a sample may be any. */
  ghost predicate Sendable(format: Format, run: Run)
    requires format.Valid()
  {
    && (forall i :: 0 <= i < 4 && !format.enabled[i] ==> run.frame[i] == 0)
    && (format.rle ==> WordOf(format, run.frame)[format.Channels() - 1] < 0x80)
    && CountsFit(format, run.counts)
  }

  ghost predicate CountsFit(format: Format, counts: seq<nat>)
    requires format.Valid()
  {
    if format.rle then AllBelow(counts, Pow2(8 * format.Channels() - 1)) else counts == []
  }

  predicate AllBelow(counts: seq<nat>, bound: nat) {
    counts == [] || (counts[|counts| - 1] < bound && AllBelow(counts[..|counts| - 1], bound))
  }

  function Times(run: Run): nat {
    if run.counts == [] then 1 else run.counts[|run.counts| - 1] + 1
  }

  /** A count with the top bit of its word set. */
  function CountWord(n: nat, count: nat): (word: seq<Byte>)
    requires n >= 1
    ensures |word| == n && word[n - 1] >= 0x80
  {
    var bytes := LowBytes(count, n);
    bytes[..n - 1] + [bytes[n - 1] % 0x80 + 0x80]
  }

  function CountWords(n: nat, counts: seq<nat>): (words: seq<seq<Byte>>)
    requires n >= 1
    ensures |words| == |counts| && forall i :: 0 <= i < |words| ==> words[i] == CountWord(n, counts[i])
  {
    seq(|counts|, i requires 0 <= i < |counts| => CountWord(n, counts[i]))
  }

  function SentWords(format: Format, runs: seq<Run>): seq<seq<Byte>>
    requires format.Valid()
  {
    if runs == [] then []
    else
      var last := runs[|runs| - 1];
      (SentWords(format, runs[..|runs| - 1]) + CountWords(format.Channels(), last.counts)) + [WordOf(format, last.frame)]
  }

  /** The samples the sender saw. */
  ghost function Seen(format: Format, runs: seq<Run>): seq<Frame>
    requires format.Valid() && AllSendable(format, runs)
  {
    if runs == [] then []
    else
      var last := runs[|runs| - 1];
      Seen(format, runs[..|runs| - 1]) + Repeat(last.frame, Times(last))
  }

  ghost predicate AllSendable(format: Format, runs: seq<Run>)
    requires format.Valid()
  {
    forall i :: 0 <= i < |runs| ==> Sendable(format, runs[i])
  }

  lemma {:induction false} SentWordsHaveWidth(format: Format, runs: seq<Run>)
    requires format.Valid() && AllSendable(format, runs)
    ensures AllOfSize(format.Channels(), SentWords(format, runs))
  {
    if runs != [] {
      SentWordsHaveWidth(format, runs[..|runs| - 1]);
      assert Sendable(format, runs[|runs| - 1]);
    }
  }

  /** A count word is understood as the count. */
  lemma CountIsRead(n: nat, count: nat)
    requires n >= 1 && count < Pow2(8 * n - 1)
    ensures CountOf(CountWord(n, count)) == count
  {
    var bytes := LowBytes(count, n);
    var word := CountWord(n, count);
    TopOfLowBytes(count, n);
    WordOfLowBytes(count, n);
    assert word[..n - 1] + [word[n - 1] - 0x80] == bytes;
  }

  lemma Pow2Of7()
    ensures Pow2(7) == 0x80
  {
    assert Pow2(1) == 2;
    assert Pow2(3) == 8;
    assert Pow2(5) == 32;
  }

  lemma {:induction false} TopOfLowBytes(x: nat, n: nat)
    requires n > 0 && x < Pow2(8 * n - 1)
    ensures LowBytes(x, n)[n - 1] < 0x80
  {
    if n == 1 {
      Pow2Of7();
    } else {
      DivideBy256(x, 8 * n - 1);
      TopOfLowBytes(x / 0x100, n - 1);
    }
  }

  lemma DivideBy256(x: nat, n: nat)
    requires n >= 8 && x < Pow2(n)
    ensures x / 0x100 < Pow2(n - 8)
  {
    assert Pow2(n) == 4 * Pow2(n - 2);
    assert Pow2(n - 2) == 4 * Pow2(n - 4);
    assert Pow2(n - 4) == 4 * Pow2(n - 6);
    assert Pow2(n - 6) == 4 * Pow2(n - 8);
  }

  lemma {:induction false} WordOfLowBytes(x: nat, n: nat)
    requires n > 0 && x < Pow2(8 * n - 1)
    ensures Word(LowBytes(x, n)) == x
  {
    if n == 1 {
      Pow2Of7();
      assert LowBytes(x, 1) == [x];
      assert Word([x]) == x + 0x100 * Word([]);
    } else {
      DivideBy256(x, 8 * n - 1);
      WordOfLowBytes(x / 0x100, n - 1);
      assert LowBytes(x, n)[1..] == LowBytes(x / 0x100, n - 1);
    }
  }

  lemma DecodeSnoc(format: Format, words: seq<seq<Byte>>, word: seq<Byte>)
    requires format.Valid()
    ensures DecodeWords(format, words + [word]) == TakeWord(format, DecodeWords(format, words), word)
  {
    assert (words + [word])[..|words|] == words;
  }

  lemma {:induction false} DecodeCounts(format: Format, n: nat, words: seq<seq<Byte>>, counts: seq<nat>)
    requires format.Valid() && n == format.Channels() && format.rle
    requires AllBelow(counts, Pow2(8 * n - 1))
    ensures DecodeWords(format, words + CountWords(n, counts)) ==
            if counts == [] then DecodeWords(format, words)
            else Decoded(counts[|counts| - 1], DecodeWords(format, words).samples)
    decreases |counts|
  {
    if counts == [] {
      assert words + CountWords(n, counts) == words;
    } else {
      var init, last := counts[..|counts| - 1], counts[|counts| - 1];
      DecodeCounts(format, n, words, init);
      CountWordsSnoc(n, words, counts);
      DecodeCount(format, words + CountWords(n, init), last);
    }
  }

  lemma CountWordsSnoc(n: nat, words: seq<seq<Byte>>, counts: seq<nat>)
    requires n >= 1 && counts != []
    ensures words + CountWords(n, counts) ==
            (words + CountWords(n, counts[..|counts| - 1])) + [CountWord(n, counts[|counts| - 1])]
  {
  }

  /** A count replaces the one before it. */
  lemma DecodeCount(format: Format, words: seq<seq<Byte>>, count: nat)
    requires format.Valid() && format.rle && count < Pow2(8 * format.Channels() - 1)
    ensures DecodeWords(format, words + [CountWord(format.Channels(), count)]) ==
            Decoded(count, DecodeWords(format, words).samples)
  {
    CountIsRead(format.Channels(), count);
    DecodeSnoc(format, words, CountWord(format.Channels(), count));
  }

  lemma {:induction false} DecodeSentWords(format: Format, runs: seq<Run>)
    requires format.Valid() && AllSendable(format, runs)
    ensures DecodeWords(format, SentWords(format, runs)) == Decoded(0, Seen(format, runs))
    decreases |runs|
  {
    if runs != [] {
      var init, last := runs[..|runs| - 1], runs[|runs| - 1];
      DecodeSentWords(format, init);
      assert Sendable(format, last);
      DecodeRun(format, SentWords(format, init), last);
    }
  }

  lemma DecodeRunCounts(format: Format, words: seq<seq<Byte>>, counts: seq<nat>)
    requires format.Valid() && CountsFit(format, counts) && DecodeWords(format, words).count == 0
    ensures DecodeWords(format, words + CountWords(format.Channels(), counts)) ==
            Decoded(if counts == [] then 0 else counts[|counts| - 1], DecodeWords(format, words).samples)
  {
    if counts == [] {
      assert words + CountWords(format.Channels(), counts) == words;
    } else {
      DecodeCounts(format, format.Channels(), words, counts);
    }
  }

  lemma DecodeRun(format: Format, words: seq<seq<Byte>>, run: Run)
    requires format.Valid() && Sendable(format, run) && DecodeWords(format, words).count == 0
    ensures DecodeWords(format, (words + CountWords(format.Channels(), run.counts)) + [WordOf(format, run.frame)]) ==
            Decoded(0, DecodeWords(format, words).samples + Repeat(run.frame, Times(run)))
  {
    var counted, word := words + CountWords(format.Channels(), run.counts), WordOf(format, run.frame);
    assert !IsCount(format, word) && Spread(format, word) == run.frame by {
      SpreadRestoresGroups(format, run.frame);
    }
    assert DecodeWords(format, counted) == Decoded(Times(run) - 1, DecodeWords(format, words).samples) by {
      DecodeRunCounts(format, words, run.counts);
    }
    DecodeSnoc(format, counted, word);
  }

  /** Receiving what was sent gives what the sender saw: every sample once more than the last count
      before it says. */
  lemma ExpansionOfSent(format: Format, runs: seq<Run>)
    requires format.Valid() && AllSendable(format, runs)
    ensures Expansion(format, Flatten(SentWords(format, runs))) == Seen(format, runs)
  {
    SentWordsHaveWidth(format, runs);
    ChopFlattened(format.Channels(), SentWords(format, runs));
    DecodeSentWords(format, runs);
  }

  // Without run-length encoding.

  function SpreadAll(format: Format, words: seq<seq<Byte>>): seq<Frame>
    requires format.Valid() && AllOfSize(format.Channels(), words)
  {
    if words == [] then []
    else SpreadAll(format, words[..|words| - 1]) + [Spread(format, words[|words| - 1])]
  }

  /** Every word is a sample, whatever its bits are. */
  lemma PlainWordsAreSamples(format: Format, words: seq<seq<Byte>>)
    requires format.Valid() && !format.rle && AllOfSize(format.Channels(), words)
    ensures Expansion(format, Flatten(words)) == SpreadAll(format, words)
  {
    ChopFlattened(format.Channels(), words);
    DecodePlain(format, words);
  }

  lemma {:induction false} DecodePlain(format: Format, words: seq<seq<Byte>>)
    requires format.Valid() && !format.rle && AllOfSize(format.Channels(), words)
    ensures DecodeWords(format, words) == Decoded(0, SpreadAll(format, words))
  {
    if words != [] {
      var init, last := words[..|words| - 1], words[|words| - 1];
      DecodePlain(format, init);
      assert Repeat(Spread(format, last), 1) == [Spread(format, last)];
    }
  }
}
