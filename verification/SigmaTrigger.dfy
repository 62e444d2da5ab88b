/** The trigger of the ASIX Sigma at 50 MHz and below: edges are detected by a table of 16 bits, whose
inputs are the current and the previous level of two pins. */
module SigmaTrigger {
  import opened Bits
  import opened SigmaLut

  datatype Oper = Level | Not | Rise | Fall | RiseFall | NotRise | NotFall | NotRiseFall

  datatype Func = AndF | NandF | OrF | NorF | XorF | NxorF

  /** What an operation means for a pin that was at one level, and is at another. */
  predicate Detects(oper: Oper, before: bool, now: bool) {
    match oper
    case Level => now
    case Not => !now
    case Rise => !before && now
    case Fall => before && !now
    case RiseFall => before != now
    case NotRise => !(!before && now)
    case NotFall => !(before && !now)
    case NotRiseFall => before == now
  }

  predicate Combined(func: Func, a: bool, b: bool) {
    match func
    case AndF => a && b
    case NandF => !(a && b)
    case OrF => a || b
    case NorF => !(a || b)
    case XorF => a != b
    case NxorF => a == b
  }

  /** A function added for the pin of this index. */
  datatype Call = Call(oper: Oper, func: Func, index: nat)

  /** The nested expression of some calls, over inputs of which bit `2 * index` is the level of a pin, and
      bit `2 * index + 1` the one before. */
  predicate Expression(start: nat, calls: seq<Call>, input: nat) {
    if calls == [] then Bit(start, input)
    else
      var last := calls[|calls| - 1];
      var pin := Detects(last.oper, Bit(input, 2 * last.index + 1), Bit(input, 2 * last.index));
      Combined(last.func, Expression(start, calls[..|calls| - 1], input), pin)
  }

  /** The mask is the truth table of the calls. */
  ghost predicate IsTable(mask: nat, start: nat, calls: seq<Call>) {
    forall i :: 0 <= i < 16 ==> (Bit(mask, i) <==> Expression(start, calls, i))
  }

  lemma ExpressionSnoc(start: nat, calls: seq<Call>, call: Call, i: nat)
    ensures Expression(start, calls + [call], i) <==>
            Combined(call.func, Expression(start, calls, i),
                     Detects(call.oper, Bit(i, 2 * call.index + 1), Bit(i, 2 * call.index)))
  {
    assert (calls + [call])[..|calls|] == calls;
  }

  /** The condition of an operation, as an array over the level before and the level now. */
  method DetectCondition(oper: Oper) returns (x: array2<bool>)
    ensures fresh(x) && x.Length0 == 2 && x.Length1 == 2
    ensures forall before, now :: x[if before then 1 else 0, if now then 1 else 0] == Detects(oper, before, now)
  {
    x := new bool[2, 2]((i, j) => false);
    match oper {
      case Level =>
        x[0, 1] := true;
        x[1, 1] := true;
      case Not =>
        x[0, 0] := true;
        x[1, 0] := true;
      case Rise =>
        x[0, 1] := true;
      case Fall =>
        x[1, 0] := true;
      case RiseFall =>
        x[0, 1] := true;
        x[1, 0] := true;
      case NotRise =>
        x[1, 1] := true;
        x[0, 0] := true;
        x[1, 0] := true;
      case NotFall =>
        x[1, 1] := true;
        x[0, 0] := true;
        x[0, 1] := true;
      case NotRiseFall =>
        x[1, 1] := true;
        x[0, 0] := true;
    }
  }

  /** One call more: the table becomes that of the expression with the function around it. */
  method AddTriggerFunction(oper: Oper, func: Func, index: nat, mask: nat, ghost start: nat, ghost calls: seq<Call>)
    returns (result: nat)
    requires IsTable(mask, start, calls)
    ensures IsTable(result, start, calls + [Call(oper, func, index)])
  {
    var x := DetectCondition(oper);
    result := mask;
    for i := 0 to 16
      invariant forall before, now :: x[if before then 1 else 0, if now then 1 else 0] == Detects(oper, before, now)
      invariant forall h :: 0 <= h < i ==> (Bit(result, h) <==> Expression(start, calls + [Call(oper, func, index)], h))
      invariant forall h :: i <= h < 16 ==> (Bit(result, h) <==> Expression(start, calls, h))
    {
      ExpressionSnoc(start, calls, Call(oper, func, index), i);
      var a := Bit(i, 2 * index);
      var b := Bit(i, 2 * index + 1);
      var aset := Bit(result, i);
      var bset := x[if b then 1 else 0, if a then 1 else 0];
      var rset;
      if func == AndF || func == NandF {
        rset := aset && bset;
      } else if func == OrF || func == NorF {
        rset := aset || bset;
      } else {
        rset := aset != bset;
      }
      if func == NandF || func == NorF || func == NxorF {
        rset := !rset;
      }
      result := WriteBit(result, i, rset);
    }
  }

  method WriteBit(word: nat, i: nat, set_: bool) returns (result: nat)
    ensures forall h: nat :: Bit(result, h) <==> if h == i then set_ else Bit(word, h)
  {
    ClearOne(word, i);
    result := ClearBit(word, i);
    if set_ {
      SetOne(result, i);
      result := SetBit(result, i);
    }
  }

  lemma SetOne(word: nat, j: nat)
    ensures forall h: nat :: Bit(SetBit(word, j), h) <==> h == j || Bit(word, h)
  {
    forall h: nat ensures Bit(SetBit(word, j), h) <==> h == j || Bit(word, h) {
      BitOfSetBit(word, j, h);
    }
  }

  // The trigger of an acquisition.

  datatype Trigger = Trigger(simpleMask: nat, simpleValue: nat, risingMask: nat, fallingMask: nat) {
    ghost predicate Valid() {
      simpleMask < 0x1_0000 && risingMask < 0x1_0000 && fallingMask < 0x1_0000
    }

    predicate Requests(e: Edge) {
      if e.rising then Bit(risingMask, e.pin) else Bit(fallingMask, e.pin)
    }
  }

  datatype Edge = Edge(pin: nat, rising: bool) {
    predicate Occurs(before: nat, now: nat) {
      Bit(before, pin) != rising && Bit(now, pin) == rising
    }
  }

  predicate LevelsMatch(t: Trigger, now: nat) {
    And(now, t.simpleMask) == And(t.simpleValue, t.simpleMask)
  }

  ghost predicate SomeEdge(t: Trigger, before: nat, now: nat) {
    exists e: Edge :: t.Requests(e) && e.Occurs(before, now)
  }

  ghost predicate EveryEdge(t: Trigger, before: nat, now: nat) {
    forall e: Edge :: t.Requests(e) ==> e.Occurs(before, now)
  }

  predicate NoEdgeRequested(t: Trigger) {
    t.risingMask == 0 && t.fallingMask == 0
  }

  /** The tables `m0d` and `m1d` select the pins, `m2d` compares, and `m3` detects the edges. `m4` and
      `selres` are constants for this kind of trigger. */
  datatype Luts = Luts(m0d: seq<nat>, m1d: seq<nat>, m2d: seq<nat>, m3: nat, m4: nat, selres: nat)

  function One(b: bool): nat {
    if b then 1 else 0
  }

  /** The input of the edge table. */
  function Input(now0: bool, before0: bool, now1: bool, before1: bool): nat {
    One(now0) + 2 * One(before0) + 4 * One(now1) + 8 * One(before1)
  }

  lemma BitsOfInput(now0: bool, before0: bool, now1: bool, before1: bool)
    ensures var i := Input(now0, before0, now1, before1);
            i < 16 && (Bit(i, 0) <==> now0) && (Bit(i, 1) <==> before0)
            && (Bit(i, 2) <==> now1) && (Bit(i, 3) <==> before1)
  {
    var i := Input(now0, before0, now1, before1);
    assert i / 2 / 2 == One(now1) + 2 * One(before1);
    assert Bit(i, 1) == Bit(i / 2, 0);
    assert Bit(i, 2) == Bit(i / 2, 1) == Bit(i / 2 / 2, 0);
    assert Bit(i, 3) == Bit(i / 2, 2) == Bit(i / 2 / 2, 1) == Bit(i / 2 / 2 / 2, 0);
  }

  /** What the hardware does with the tables when a sample follows another. */
  predicate Fires(luts: Luts, before: nat, now: nat)
    requires |luts.m0d| == 4 && |luts.m1d| == 4 && |luts.m2d| == 4
  {
    && Lookup(luts.m2d, now)
    && Bit(luts.m3, Input(Lookup(luts.m0d, now), Lookup(luts.m0d, before), Lookup(luts.m1d, now), Lookup(luts.m1d, before)))
  }

  /** The pins below `n` with an edge in the trigger. */
  function Pins(t: Trigger, n: nat): (pins: seq<nat>)
  {
    if n == 0 then []
    else Pins(t, n - 1) + (if Bit(t.risingMask, n - 1) || Bit(t.fallingMask, n - 1) then [n - 1] else [])
  }

  lemma {:induction false} PinsGrow(t: Trigger, n: nat, m: nat)
    requires n <= m
    ensures |Pins(t, n)| <= |Pins(t, m)| && Pins(t, n) == Pins(t, m)[..|Pins(t, n)|]
    decreases m
  {
    if n < m {
      PinsGrow(t, n, m - 1);
    }
  }

  lemma {:induction false} PinsAre(t: Trigger, n: nat, p: nat)
    ensures p in Pins(t, n) <==> p < n && (Bit(t.risingMask, p) || Bit(t.fallingMask, p))
  {
    if n > 0 {
      PinsAre(t, n - 1, p);
    }
  }

  /** The mask of a pin, if there is one. */
  function MaskOf(pins: seq<nat>, k: nat): nat {
    if k < |pins| then Pow2(pins[k]) else 0
  }

  /** The edges of a pin that are in the trigger and occur. */
  predicate PinFires(t: Trigger, pins: seq<nat>, k: nat, before: bool, now: bool) {
    && k < |pins|
    && (|| (Bit(t.risingMask, pins[k]) && !before && now)
        || (Bit(t.fallingMask, pins[k]) && before && !now))
  }

  /** Add the edges of one pin to the table. */
  method AddEdges(t: Trigger, ghost pins: seq<nat>, index: nat, mask: nat, m3: nat) returns (result: nat)
    requires mask == MaskOf(pins, index)
    ensures forall i :: 0 <= i < 16 ==>
      (Bit(result, i) <==> Bit(m3, i) || PinFires(t, pins, index, Bit(i, 2 * index + 1), Bit(i, 2 * index)))
  {
    if index < |pins| {
      BitOfPow2(t.risingMask, pins[index]);
      BitOfPow2(t.fallingMask, pins[index]);
    }
    result := m3;
    if And(t.risingMask, mask) != 0 {
      result := AddOr(Rise, index, result);
    }
    if And(t.fallingMask, mask) != 0 {
      result := AddOr(Fall, index, result);
    }
  }

  method AddOr(oper: Oper, index: nat, mask: nat) returns (result: nat)
    ensures forall i :: 0 <= i < 16 ==>
      (Bit(result, i) <==> Bit(mask, i) || Detects(oper, Bit(i, 2 * index + 1), Bit(i, 2 * index)))
  {
    result := AddTriggerFunction(oper, OrF, index, mask, mask, []);
    forall i | 0 <= i < 16
      ensures Bit(result, i) <==> Bit(mask, i) || Detects(oper, Bit(i, 2 * index + 1), Bit(i, 2 * index))
    {
      ExpressionSnoc(mask, [], Call(oper, OrF, index), i);
    }
  }

  /** The masks of the pins with edges. There must not be more than two. */
  method FindPins(t: Trigger) returns (masks: array<nat>)
    requires |Pins(t, 16)| <= 2
    ensures fresh(masks) && masks.Length == 2
    ensures masks[0] == MaskOf(Pins(t, 16), 0) && masks[1] == MaskOf(Pins(t, 16), 1)
  {
    masks := new nat[2](_ => 0);
    var j := 0;
    for i := 0 to 16
      invariant j == |Pins(t, i)| <= 2
      invariant masks[0] == MaskOf(Pins(t, i), 0) && masks[1] == MaskOf(Pins(t, i), 1)
    {
      PinsGrow(t, i + 1, 16);
      if Bit(t.risingMask, i) || Bit(t.fallingMask, i) {
        masks[j] := Pow2(i);
        j := j + 1;
      }
    }
  }

  /** The hardware fires on a sample if its levels match, and one of the edges asked for occurs, if any
      were asked for. */
  method BuildBasicTrigger(t: Trigger) returns (luts: Luts)
    requires t.Valid() && |Pins(t, 16)| <= 2
    ensures |luts.m0d| == 4 && |luts.m1d| == 4 && |luts.m2d| == 4 && luts.m4 == 0xa000 && luts.selres == 3
    ensures forall before, now: nat ::
      Fires(luts, before, now) <==> LevelsMatch(t, now) && (NoEdgeRequested(t) || SomeEdge(t, before, now))
  {
    var m0d, m1d, m2d := new nat[4], new nat[4], new nat[4];
    BuildLutEntry(t.simpleValue, t.simpleMask, m2d);
    var masks := FindPins(t);
    var mask0, mask1 := masks[0], masks[1];
    BuildLutEntry(mask0, mask0, m0d);
    BuildLutEntry(mask1, mask1, m1d);
    ghost var pins := Pins(t, 16);
    var m3 := 0;
    if mask0 != 0 || mask1 != 0 {
      m3 := AddEdges(t, pins, 0, mask0, m3);
      m3 := AddEdges(t, pins, 1, mask1, m3);
    } else {
      m3 := 0xffff;
      AllOnes();
    }
    luts := Luts(m0d[..], m1d[..], m2d[..], m3, 0xa000, 3);
    forall i: nat ensures !Bit(0, i) {
      ZeroHasNoBits(i);
    }
    forall before, now: nat
      ensures Fires(luts, before, now) <==> LevelsMatch(t, now) && (NoEdgeRequested(t) || SomeEdge(t, before, now))
    {
      TablesDetect(t, luts, before, now);
    }
  }

  /** The edge table is as the trigger asks for it. */
  ghost predicate IsEdgeTable(t: Trigger, m3: nat) {
    forall i :: 0 <= i < 16 ==>
      (Bit(m3, i) <==>
        || Pins(t, 16) == []
        || PinFires(t, Pins(t, 16), 0, Bit(i, 1), Bit(i, 0))
        || PinFires(t, Pins(t, 16), 1, Bit(i, 3), Bit(i, 2)))
  }

  lemma TablesDetect(t: Trigger, luts: Luts, before: nat, now: nat)
    requires t.Valid() && |Pins(t, 16)| <= 2
    requires IsLut(luts.m0d, MaskOf(Pins(t, 16), 0), MaskOf(Pins(t, 16), 0))
    requires IsLut(luts.m1d, MaskOf(Pins(t, 16), 1), MaskOf(Pins(t, 16), 1))
    requires IsLut(luts.m2d, t.simpleValue, t.simpleMask)
    requires IsEdgeTable(t, luts.m3)
    ensures Fires(luts, before, now) <==> LevelsMatch(t, now) && (NoEdgeRequested(t) || SomeEdge(t, before, now))
  {
    var pins := Pins(t, 16);
    LookupCompares(luts.m2d, t.simpleValue, t.simpleMask, now);
    LookupSelects(luts.m0d, t, 0, before);
    LookupSelects(luts.m0d, t, 0, now);
    LookupSelects(luts.m1d, t, 1, before);
    LookupSelects(luts.m1d, t, 1, now);
    BitsOfInput(Lookup(luts.m0d, now), Lookup(luts.m0d, before), Lookup(luts.m1d, now), Lookup(luts.m1d, before));
    SomeEdgeIsAtPin(t, before, now);
  }

  /** The table of a pin tells its level. */
  lemma LookupSelects(entry: seq<nat>, t: Trigger, k: nat, sample: nat)
    requires IsLut(entry, MaskOf(Pins(t, 16), k), MaskOf(Pins(t, 16), k))
    ensures k < |Pins(t, 16)| ==> (Lookup(entry, sample) <==> Bit(sample, Pins(t, 16)[k]))
  {
    if k < |Pins(t, 16)| {
      var p := Pins(t, 16)[k];
      PinsAre(t, 16, p);
      Pow2Of16();
      Pow2Grows(p, 16);
      LookupCompares(entry, Pow2(p), Pow2(p), sample);
      AgreeUnderMask(sample, Pow2(p), Pow2(p));
      forall i: nat ensures Bit(Pow2(p), i) <==> i == p {
        BitOfOnly(p, i);
      }
    }
  }

  lemma SomeEdgeIsAtPin(t: Trigger, before: nat, now: nat)
    requires t.Valid() && |Pins(t, 16)| <= 2
    ensures NoEdgeRequested(t) <==> Pins(t, 16) == []
    ensures
      var pins := Pins(t, 16);
      SomeEdge(t, before, now) <==>
        || (|pins| > 0 && PinFires(t, pins, 0, Bit(before, pins[0]), Bit(now, pins[0])))
        || (|pins| > 1 && PinFires(t, pins, 1, Bit(before, pins[1]), Bit(now, pins[1])))
  {
    var pins := Pins(t, 16);
    if SomeEdge(t, before, now) {
      var e: Edge :| t.Requests(e) && e.Occurs(before, now);
      RequestedIsPin(t, e);
    }
    forall k | 0 <= k < |pins| && PinFires(t, pins, k, Bit(before, pins[k]), Bit(now, pins[k]))
      ensures SomeEdge(t, before, now)
    {
      var e := Edge(pins[k], Bit(now, pins[k]));
      assert t.Requests(e) && e.Occurs(before, now);
    }
    if pins != [] {
      PinsAre(t, 16, pins[0]);
      ZeroHasNoBits(pins[0]);
    } else {
      if t.risingMask > 0 {
        var p := SomeBit(t.risingMask);
        RequestedIsPin(t, Edge(p, true));
      }
      if t.fallingMask > 0 {
        var p := SomeBit(t.fallingMask);
        RequestedIsPin(t, Edge(p, false));
      }
    }
  }

  lemma RequestedIsPin(t: Trigger, e: Edge)
    requires t.Valid() && t.Requests(e)
    ensures e.pin in Pins(t, 16)
  {
    Pow2Of16();
    if 16 <= e.pin {
      NoHighBits(t.risingMask, 16, e.pin);
      NoHighBits(t.fallingMask, 16, e.pin);
    }
    PinsAre(t, 16, e.pin);
  }
}
