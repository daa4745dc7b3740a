/** The wei-roll literal-call encoder (tidal/ops/weiroll.py): 256-bit command words and
    the state cells their argument slots point at. */
module Weiroll {
  import opened Common

  const FLAG_CALL: nat := 0x01
  const ARG_UNUSED: nat := 0xFF
  const DYNAMIC_BIT: nat := 0x80
  const MAX_COMMAND_ARGS: nat := 6
  const FIELDS: nat := 10

  type Byte = b: nat | b < 256
  type Bytes = seq<Byte>
  type Address = a: nat | a < Pow2(160) witness 0

  datatype PackError = BadSelector | TooManyArgs | WordOverflow

  datatype LiteralArg = LiteralArg(abiType: string, value: string)
  datatype LiteralCall = LiteralCall(target: Address, signature: string, args: seq<LiteralArg>)

  function Pow2(n: nat): (p: nat)
    ensures p > 0
  {
    if n == 0 then 1 else 2 * Pow2(n - 1)
  }

  /** Bitwise or, bit by bit. */
  function Or(a: nat, b: nat): nat
    decreases a + b
  {
    if a == 0 then b
    else if b == 0 then a
    else (if a % 2 == 1 || b % 2 == 1 then 1 else 0) + 2 * Or(a / 2, b / 2)
  }

  function Shl(a: nat, k: nat): nat {
    a * Pow2(k)
  }

  function FromBigEndian(bytes: Bytes): nat {
    if |bytes| == 0 then 0
    else 256 * FromBigEndian(bytes[..|bytes| - 1]) + bytes[|bytes| - 1]
  }

  // ------------------------------------------------------- bits and places

  lemma {:induction false} OrShl(a: nat, b: nat, k: nat)
    ensures Or(Shl(a, k), Shl(b, k)) == Shl(Or(a, b), k)
  {
    if k > 0 {
      OrShl(a, b, k - 1);
      OrDouble(Shl(a, k - 1), Shl(b, k - 1));
      ShlStep(a, k);
      ShlStep(b, k);
      ShlStep(Or(a, b), k);
    }
  }

  lemma ShlStep(a: nat, k: nat)
    requires k > 0
    ensures Shl(a, k) == 2 * Shl(a, k - 1)
  {
    assert a * (2 * Pow2(k - 1)) == 2 * (a * Pow2(k - 1));
  }

  lemma OrDouble(a: nat, b: nat)
    ensures Or(2 * a, 2 * b) == 2 * Or(a, b)
  {
  }

  lemma OrLow(a: nat, v: nat)
    ensures Or(2 * a, v) == 2 * Or(a, v / 2) + v % 2
  {
    if a == 0 {
      assert Or(0, v / 2) == v / 2;
    } else if v == 0 {
      assert Or(a, 0) == a;
    } else {
      assert 2 * a / 2 == a && 2 * a % 2 == 0;
    }
  }

  lemma Pow2Step(k: nat)
    requires k > 0
    ensures Pow2(k) == 2 * Pow2(k - 1)
  {
  }

  lemma {:induction false} OrDisjoint(p: nat, v: nat, w: nat)
    requires v < Pow2(w)
    ensures Or(Shl(p, w), v) == Shl(p, w) + v
  {
    if w > 0 {
      Pow2Step(w);
      ShlStep(p, w);
      hide Or, Shl, Pow2;
      OrDisjoint(p, v / 2, w - 1);
      OrLow(Shl(p, w - 1), v);
    } else {
      assert Or(Shl(p, w), 0) == Shl(p, w);
    }
  }

  /** An or stays below a power of two exactly if both sides do. */
  lemma {:induction false} OrBound(a: nat, b: nat, n: nat)
    ensures Or(a, b) < Pow2(n) <==> a < Pow2(n) && b < Pow2(n)
  {
    if n > 0 && a > 0 && b > 0 {
      OrBound(a / 2, b / 2, n - 1);
      HalfBound(a, n);
      HalfBound(b, n);
      var bit := if a % 2 == 1 || b % 2 == 1 then 1 else 0;
      assert Or(a, b) == bit + 2 * Or(a / 2, b / 2);
      HalfBound(Or(a, b), n);
    } else {
      OrZero(a, b);
    }
  }

  lemma OrZero(a: nat, b: nat)
    ensures Or(a, 0) == a && Or(0, b) == b
    ensures a > 0 && b > 0 ==> Or(a, b) >= 1
  {
    if a > 0 && b > 0 {
      OrPositive(a, b);
    }
  }

  lemma {:induction false} OrPositive(a: nat, b: nat)
    requires a > 0 && b > 0
    ensures Or(a, b) >= 1
    decreases a + b
  {
    if a % 2 == 0 && b % 2 == 0 {
      OrPositive(a / 2, b / 2);
    }
  }

  lemma HalfBound(a: nat, n: nat)
    requires n > 0
    ensures a < Pow2(n) <==> a / 2 < Pow2(n - 1)
  {
    Pow2Step(n);
  }

  lemma ScaleLess(v: nat, p: nat, q: nat)
    requires q > 0
    ensures v * q < p * q <==> v < p
  {
    if v < p {
      assert (v + 1) * q <= p * q;
    } else {
      assert v * q >= p * q;
    }
  }

  lemma ShlBound(v: nat, k: nat, n: nat)
    ensures Shl(v, k) < Pow2(n + k) <==> v < Pow2(n)
  {
    Pow2Add(n, k);
    hide Pow2;
    ScaleLess(v, Pow2(n), Pow2(k));
  }

  lemma ByteBound()
    ensures Pow2(8) == 256
  {
  }

  lemma {:induction false} Pow2Add(m: nat, n: nat)
    ensures Pow2(m + n) == Pow2(m) * Pow2(n)
  {
    if m > 0 {
      Pow2Add(m - 1, n);
      assert 2 * (Pow2(m - 1) * Pow2(n)) == (2 * Pow2(m - 1)) * Pow2(n);
    }
  }

  /** Or-ing in a field just below the bits already placed appends it as a digit. */
  lemma OrAppends(p: nat, v: nat, w: nat, k: nat)
    requires v < Pow2(w)
    ensures Or(Shl(p, w + k), Shl(v, k)) == Shl(Shl(p, w) + v, k)
  {
    Pow2Add(w, k);
    assert Shl(p, w + k) == Shl(Shl(p, w), k) by {
      assert p * (Pow2(w) * Pow2(k)) == (p * Pow2(w)) * Pow2(k);
    }
    OrShl(Shl(p, w), v, k);
    OrDisjoint(p, v, w);
  }

  // --------------------------------------------------------- command layout

  /** Field widths, high bits first: selector, flags, six argument slots, out slot, target. */
  const WIDTHS: seq<nat> := [32, 8, 8, 8, 8, 8, 8, 8, 8, 160]

  /** The bits below field `i`. */
  function ShiftOf(i: nat): nat
    requires i < FIELDS
  {
    [224, 216, 208, 200, 192, 184, 176, 168, 160, 0][i]
  }

  datatype Command = Command(selector: nat, flags: nat, slots: seq<nat>, outSlot: nat, target: nat)
  {
    /** Every field fits its place: byte-sized slots and flags, four-byte selector. */
    predicate Fits() {
      && selector < Pow2(32) && flags < 256 && outSlot < 256 && target < Pow2(160)
      && |slots| == MAX_COMMAND_ARGS
      && forall i :: 0 <= i < |slots| ==> slots[i] < 256
    }

    function Fields(): (f: seq<nat>)
      requires |slots| == MAX_COMMAND_ARGS
      ensures |f| == FIELDS
    {
      [selector, flags] + slots + [outSlot, target]
    }
  }

  function FieldOf(word: nat, i: nat): nat
    requires i < FIELDS
  {
    (word / Pow2(ShiftOf(i))) % Pow2(WIDTHS[i])
  }

  function Unpack(word: nat): Command {
    Command(FieldOf(word, 0), FieldOf(word, 1), seq(MAX_COMMAND_ARGS, i requires 0 <= i < 6 => FieldOf(word, i + 2)),
            FieldOf(word, 8), FieldOf(word, 9))
  }

  ghost predicate InWidth(f: seq<nat>) {
    |f| == FIELDS && forall i :: 0 <= i < FIELDS ==> f[i] < Pow2(WIDTHS[i])
  }

  /** The first `n` fields read as one number. */
  ghost function Leading(f: seq<nat>, n: nat): nat
    requires |f| == FIELDS && n <= FIELDS
  {
    if n == 0 then 0 else Shl(Leading(f, n - 1), WIDTHS[n - 1]) + f[n - 1]
  }

  lemma FitsInWidth(c: Command)
    requires c.Fits()
    ensures InWidth(c.Fields())
  {
    hide Pow2;
    ByteBound();
    var f := c.Fields();
    forall i | 0 <= i < FIELDS ensures f[i] < Pow2(WIDTHS[i]) {
      if 2 <= i < 8 {
        assert f[i] == c.slots[i - 2];
      }
    }
  }

  lemma DigitsSplit(p: nat, v: nat, d: nat)
    requires v < d
    ensures (p * d + v) / d == p && (p * d + v) % d == v
  {
    var m := p * d + v;
    assert m == (m / d) * d + m % d;
    if m / d < p {
      Scale(m / d + 1, p, d);
    } else if m / d > p {
      Scale(p + 1, m / d, d);
    }
  }

  lemma Scale(a: int, b: int, d: nat)
    requires a <= b
    ensures a * d <= b * d
  {
    assert (b - a) * d >= 0;
  }

  lemma DivDiv(m: nat, d: nat, e: nat)
    requires d > 0 && e > 0
    ensures d * e > 0 && m / (d * e) == m / d / e
  {
    ProductPositive(d, e);
    var t := m / d;
    RebuildQuotient(m, t, m % d, t / e, t % e, d, e);
  }

  lemma ProductPositive(d: nat, e: nat)
    requires d > 0 && e > 0
    ensures d * e > 0
  {
  }

  lemma RebuildQuotient(m: nat, t: nat, s: nat, q: nat, r: nat, d: nat, e: nat)
    requires m == t * d + s && t == q * e + r && s < d && r < e && d * e > 0
    ensures m / (d * e) == q
  {
    Recompose(q, e, r, d, s);
    DigitsSplit(q, r * d + s, d * e);
  }

  lemma Recompose(q: nat, e: nat, r: nat, d: nat, s: nat)
    requires r < e && s < d
    ensures (q * e + r) * d + s == q * (d * e) + (r * d + s)
    ensures r * d + s < d * e
  {
    assert (q * e) * d == q * (d * e);
    Scale(r + 1, e, d);
  }

  /** Dropping the bits below field `n - 1` leaves the leading fields. */
  lemma {:induction false} DropToLeading(f: seq<nat>, n: nat)
    requires InWidth(f) && 1 <= n <= FIELDS
    ensures Leading(f, FIELDS) / Pow2(ShiftOf(n - 1)) == Leading(f, n)
    decreases FIELDS - n
  {
    hide Pow2;
    if n < FIELDS {
      DropToLeading(f, n + 1);
      var below, w := ShiftOf(n), WIDTHS[n];
      assert ShiftOf(n - 1) == below + w;
      Pow2Add(below, w);
      DivDiv(Leading(f, FIELDS), Pow2(below), Pow2(w));
      assert Leading(f, n + 1) == Leading(f, n) * Pow2(w) + f[n];
      DigitsSplit(Leading(f, n), f[n], Pow2(w));
    } else {
      ShlZero(1);
    }
  }

  lemma LeadingFields(f: seq<nat>, i: nat)
    requires InWidth(f) && i < FIELDS
    ensures FieldOf(Leading(f, FIELDS), i) == f[i]
  {
    hide Pow2;
    DropToLeading(f, i + 1);
    DigitsSplit(Leading(f, i), f[i], Pow2(WIDTHS[i]));
  }

  /** A digit appended to a number below `p` stays below `p` times the base. */
  lemma DigitBound(a: nat, v: nat, p: nat, base: nat)
    requires a < p && v < base
    ensures a * base + v < p * base
  {
    assert (a + 1) * base <= p * base;
  }

  lemma {:induction false} LeadingBound(f: seq<nat>, n: nat)
    requires InWidth(f) && 1 <= n <= FIELDS
    ensures Leading(f, n) < Pow2(256 - ShiftOf(n - 1))
  {
    hide Pow2;
    var w := WIDTHS[n - 1];
    if n > 1 {
      LeadingBound(f, n - 1);
      var above := 256 - ShiftOf(n - 2);
      assert 256 - ShiftOf(n - 1) == above + w;
      Pow2Add(above, w);
      DigitBound(Leading(f, n - 1), f[n - 1], Pow2(above), Pow2(w));
    } else {
      assert Leading(f, 0) == 0;
    }
  }

  lemma UnpackLeading(c: Command)
    requires c.Fits()
    ensures Unpack(Leading(c.Fields(), FIELDS)) == c
    ensures Leading(c.Fields(), FIELDS) < Pow2(256)
  {
    hide Pow2;
    FitsInWidth(c);
    var f := c.Fields();
    LeadingBound(f, FIELDS);
    forall i | 0 <= i < FIELDS ensures FieldOf(Leading(f, FIELDS), i) == f[i] {
      LeadingFields(f, i);
    }
    assert Unpack(Leading(f, FIELDS)).slots == c.slots;
  }

  // ------------------------------------------------------------- packing

  function Pad(slots: seq<nat>): (p: seq<nat>)
    requires |slots| <= MAX_COMMAND_ARGS
    ensures |p| == MAX_COMMAND_ARGS
  {
    slots + seq(MAX_COMMAND_ARGS - |slots|, _ => ARG_UNUSED)
  }

  /** No field reaches past the top of the word. */
  predicate WordFits(flags: nat, slots: seq<nat>, outSlot: nat) {
    && flags < Pow2(40) && outSlot < Pow2(96)
    && forall i :: 0 <= i < |slots| ==> slots[i] < Pow2(48 + 8 * i)
  }

  /** Packing is refused exactly for a bad selector, too many slots, or a field reaching past
      the top of the word; every command whose fields fit their places is packed, and
      unpacking gives it back. */
  method PackCommand(selector: Bytes, target: Address, argSlots: seq<nat>, flags: nat, outSlot: nat)
      returns (r: Result<nat, PackError>)
    ensures |selector| != 4 ==> r == Err(BadSelector)
    ensures |selector| == 4 && |argSlots| > MAX_COMMAND_ARGS ==> r == Err(TooManyArgs)
    ensures |selector| == 4 && |argSlots| <= MAX_COMMAND_ARGS ==>
              (r.Ok? <==> WordFits(flags, Pad(argSlots), outSlot)) && (r.Err? ==> r.error == WordOverflow)
    ensures r.Ok? ==> r.value < Pow2(256)
    ensures |selector| == 4 && |argSlots| <= MAX_COMMAND_ARGS ==>
              var c := Command(FromBigEndian(selector), flags, Pad(argSlots), outSlot, target);
              c.Fits() ==> r.Ok? && Unpack(r.value) == c
  {
    hide Pow2, Or, Shl, Leading, Unpack;
    if |selector| != 4 {
      return Err(BadSelector);
    }
    if |argSlots| > MAX_COMMAND_ARGS {
      return Err(TooManyArgs);
    }
    var padded := Pad(argSlots);
    var high := FromBigEndian(selector);
    ghost var c := Command(high, flags, padded, outSlot, target);
    ghost var f := c.Fields();
    if c.Fits() {
      FitsInWidth(c);
      FirstField(f);
      AppendField(f, 1);
    }

    SelectorFits(selector);
    ShlBound(high, 224, 32);
    ShlBound(flags, 216, 40);
    OrBound(Shl(high, 224), Shl(flags, 216), 256);
    var command: nat := Shl(high, 224);
    command := Or(command, Shl(flags, 216));
    for i := 0 to MAX_COMMAND_ARGS
      invariant command < Pow2(256) <==> flags < Pow2(40) && forall j :: 0 <= j < i ==> padded[j] < Pow2(48 + 8 * j)
      invariant c.Fits() ==> command == Shl(Leading(f, i + 2), ShiftOf(i + 1))
    {
      assert ShiftOf(i + 2) == 208 - 8 * i && f[i + 2] == padded[i];
      if c.Fits() {
        AppendField(f, i + 2);
      }
      ShlBound(padded[i], 208 - 8 * i, 48 + 8 * i);
      OrBound(command, Shl(padded[i], 208 - 8 * i), 256);
      command := Or(command, Shl(padded[i], 208 - 8 * i));
    }
    if c.Fits() {
      AppendField(f, 8);
      AppendField(f, 9);
      UnpackLeading(c);
    }
    ShlZero(target);
    ShlZero(Leading(f, FIELDS));
    ShlBound(outSlot, 160, 96);
    OrBound(command, Shl(outSlot, 160), 256);
    command := Or(command, Shl(outSlot, 160));
    TargetFits(target);
    OrBound(command, target, 256);
    command := Or(command, target);
    if command >= Pow2(256) {
      return Err(WordOverflow);
    }
    return Ok(command);
  }

  lemma TargetFits(target: Address)
    ensures target < Pow2(256)
  {
    hide Pow2;
    Pow2Grows(160, 96);
  }

  lemma {:induction false} Pow2Grows(m: nat, n: nat)
    ensures Pow2(m) <= Pow2(m + n)
    decreases n
  {
    if n > 0 {
      Pow2Grows(m, n - 1);
      Pow2Step(m + n);
    }
  }

  lemma ShlZero(a: nat)
    ensures Shl(a, 0) == a
  {
  }

  lemma FirstField(f: seq<nat>)
    requires InWidth(f)
    ensures Leading(f, 1) == f[0]
  {
    hide Pow2;
    assert Leading(f, 0) == 0;
  }

  lemma AppendField(f: seq<nat>, n: nat)
    requires InWidth(f) && 1 <= n < FIELDS
    ensures Or(Shl(Leading(f, n), ShiftOf(n - 1)), Shl(f[n], ShiftOf(n))) == Shl(Leading(f, n + 1), ShiftOf(n))
  {
    hide Pow2, Or, Shl;
    assert ShiftOf(n - 1) == WIDTHS[n] + ShiftOf(n);
    OrAppends(Leading(f, n), f[n], WIDTHS[n], ShiftOf(n));
  }

  // ------------------------------------------------------- literal calls

  /** The slot byte for a state cell: bit 7 marks a dynamic value. */
  function SlotFor(cell: nat, dynamic: bool): nat {
    if dynamic then Or(cell, DYNAMIC_BIT) else cell
  }

  /** A slot the virtual machine reads back correctly. */
  ghost predicate Faithful(slot: nat, cell: nat, dynamic: bool) {
    && slot % 128 == cell
    && (slot / 128 % 2 == 1 <==> dynamic)
    && slot != 0xFF
  }

  lemma SlotValue(cell: nat, dynamic: bool)
    requires cell < 128
    ensures SlotFor(cell, dynamic) == cell + if dynamic then 128 else 0
  {
    assert Pow2(7) == 128;
    OrDisjoint(1, cell, 7);
    OrCommutes(cell, 128);
  }

  lemma OrCommutes(a: nat, b: nat)
    ensures Or(a, b) == Or(b, a)
    decreases a + b
  {
    if a > 0 && b > 0 {
      OrCommutes(a / 2, b / 2);
    }
  }

  /** Every slot of a plan is faithful exactly when the plan has at most 127 literals, or
      has 128 and the last is static: cell 127 marked dynamic is the unused marker. */
  lemma SlotsFaithfulIff(dynamic: seq<bool>)
    ensures (forall k :: 0 <= k < |dynamic| ==> Faithful(SlotFor(k, dynamic[k]), k, dynamic[k]))
            <==> |dynamic| <= 127 || (|dynamic| == 128 && !dynamic[127])
  {
    forall k | 0 <= k < |dynamic| && k < 128
      ensures Faithful(SlotFor(k, dynamic[k]), k, dynamic[k]) <==> !(k == 127 && dynamic[k])
    {
      SlotValue(k, dynamic[k]);
    }
    if |dynamic| > 128 {
      assert !Faithful(SlotFor(128, dynamic[128]), 128, dynamic[128]);
    }
    if |dynamic| == 128 && dynamic[127] {
      assert !Faithful(SlotFor(127, dynamic[127]), 127, dynamic[127]);
    }
  }

  /** The literals of a plan in state order. */
  function Literals(calls: seq<LiteralCall>): seq<LiteralArg> {
    if |calls| == 0 then [] else Literals(calls[..|calls| - 1]) + calls[|calls| - 1].args
  }

  lemma {:induction false} LiteralsPrefix(calls: seq<LiteralCall>, i: nat)
    requires i < |calls|
    ensures Literals(calls[..i]) + calls[i].args == Literals(calls[..i + 1]) <= Literals(calls)
    decreases |calls|
  {
    assert calls[..i + 1][..i] == calls[..i];
    if i + 1 < |calls| {
      var rest := calls[..|calls| - 1];
      LiteralsPrefix(rest, i);
      assert rest[..i + 1] == calls[..i + 1] && rest[..i] == calls[..i] && rest[i] == calls[i];
    } else {
      assert calls[..i + 1] == calls;
    }
  }

  /** What a built command says: its call's selector and target, one slot per argument
      pointing at that argument's own cell, the rest unused. */
  ghost predicate Encodes(word: nat, call: LiteralCall, base: nat, isDynamic: string -> bool,
      selectorOf: string -> Bytes) {
    var c := Unpack(word);
    && |call.args| <= 6
    && c.selector == FromBigEndian(selectorOf(call.signature))
    && c.flags == 1 && c.outSlot == 0xFF && c.target == call.target
    && |c.slots| == 6
    && (forall j :: 0 <= j < |call.args| ==> c.slots[j] == SlotFor(base + j, isDynamic(call.args[j].abiType)))
    && (forall j :: |call.args| <= j < 6 ==> c.slots[j] == 0xFF)
  }

  ghost predicate PlanEncodes(commands: seq<nat>, calls: seq<LiteralCall>, isDynamic: string -> bool,
      selectorOf: string -> Bytes) {
    && |commands| == |calls|
    && forall i :: 0 <= i < |calls| ==> Encodes(commands[i], calls[i], |Literals(calls[..i])|, isDynamic, selectorOf)
  }

  ghost predicate ArgsFit(calls: seq<LiteralCall>) {
    forall i :: 0 <= i < |calls| ==> |calls[i].args| <= 6
  }

  lemma PlanExtends(commands: seq<nat>, calls: seq<LiteralCall>, i: nat, word: nat,
                    isDynamic: string -> bool, selectorOf: string -> Bytes)
    requires i < |calls|
    requires PlanEncodes(commands, calls[..i], isDynamic, selectorOf)
    requires Encodes(word, calls[i], |Literals(calls[..i])|, isDynamic, selectorOf)
    ensures PlanEncodes(commands + [word], calls[..i + 1], isDynamic, selectorOf)
  {
    hide Encodes, Literals;
    var more := calls[..i + 1];
    forall k | 0 <= k < i + 1
      ensures Encodes((commands + [word])[k], more[k], |Literals(more[..k])|, isDynamic, selectorOf)
    {
      assert more[..k] == calls[..i][..k] || k == i;
      assert more[..k] == calls[..k];
    }
  }

  lemma NothingBuilt(encode: LiteralArg -> Bytes, isDynamic: string -> bool, selectorOf: string -> Bytes)
    ensures HoldsLiterals([], Literals([]), encode)
    ensures PlanEncodes([], [], isDynamic, selectorOf)
  {
  }

  /** The virtual machine reads every argument of a plan back: its slot's low seven bits
      index the cell holding it, bit seven tells dynamic types, and no used slot is the
      unused marker. */
  ghost predicate ReadsBack(
      commands: seq<nat>, state: seq<Bytes>, calls: seq<LiteralCall>, encode: LiteralArg -> Bytes,
      isDynamic: string -> bool)
  {
    && |commands| == |calls|
    && forall i, j :: 0 <= i < |calls| && 0 <= j < |calls[i].args| ==>
         j < MAX_COMMAND_ARGS
         && SlotReads(Unpack(commands[i]).slots[j], state, encode(calls[i].args[j]),
                      isDynamic(calls[i].args[j].abiType))
  }

  predicate SlotReads(slot: nat, state: seq<Bytes>, value: Bytes, dynamic: bool) {
    slot % 128 < |state| && state[slot % 128] == value && (slot / 128 % 2 == 1 <==> dynamic) && slot != 0xFF
  }

  /** As many literals as the slots can tell apart. */
  ghost predicate Addressable(calls: seq<LiteralCall>, isDynamic: string -> bool) {
    var args := Literals(calls);
    |args| <= 127 || (|args| == 128 && !isDynamic(args[127].abiType))
  }

  lemma PlanReadsBack(commands: seq<nat>, state: seq<Bytes>, calls: seq<LiteralCall>, encode: LiteralArg -> Bytes,
                      isDynamic: string -> bool, selectorOf: string -> Bytes)
    requires PlanEncodes(commands, calls, isDynamic, selectorOf) && HoldsLiterals(state, Literals(calls), encode)
    requires Addressable(calls, isDynamic)
    ensures ReadsBack(commands, state, calls, encode, isDynamic)
  {
    var args := Literals(calls);
    var dynamic := seq(|args|, k requires 0 <= k < |args| => isDynamic(args[k].abiType));
    SlotsFaithfulIff(dynamic);
    hide Unpack, SlotFor, Faithful, FromBigEndian;
    forall i, j | 0 <= i < |calls| && 0 <= j < |calls[i].args|
      ensures j < MAX_COMMAND_ARGS
              && SlotReads(Unpack(commands[i]).slots[j], state, encode(calls[i].args[j]),
                           isDynamic(calls[i].args[j].abiType))
    {
      var base := |Literals(calls[..i])|;
      LiteralsPrefix(calls, i);
      assert (Literals(calls[..i]) + calls[i].args)[base + j] == calls[i].args[j];
      assert args[base + j] == calls[i].args[j];
      assert Encodes(commands[i], calls[i], base, isDynamic, selectorOf);
      FaithfulReads(SlotFor(base + j, dynamic[base + j]), base + j, dynamic[base + j]);
    }
  }

  lemma FaithfulReads(slot: nat, cell: nat, dynamic: bool)
    requires Faithful(slot, cell, dynamic)
    ensures slot % 128 == cell && (slot / 128 % 2 == 1 <==> dynamic) && slot != 0xFF
  {
  }

  /** A plan builds iff no call has more than six arguments (for at most 128 literals);
      its state is the encoded literals in order, every command encodes its call, and
      every argument is read back from its own cell while the cells can be told apart. */
  method BuildLiteralCalls(
      calls: seq<LiteralCall>, encode: LiteralArg -> Bytes, isDynamic: string -> bool, selectorOf: string -> Bytes)
      returns (r: Result<(seq<nat>, seq<Bytes>), PackError>)
    requires forall s :: |selectorOf(s)| == 4
    ensures |Literals(calls)| <= 128 ==> (r.Ok? <==> ArgsFit(calls))
    ensures r.Ok? ==> HoldsLiterals(r.value.1, Literals(calls), encode)
    ensures r.Ok? && |Literals(calls)| <= 128 ==> PlanEncodes(r.value.0, calls, isDynamic, selectorOf)
    ensures r.Ok? && Addressable(calls, isDynamic) ==> ReadsBack(r.value.0, r.value.1, calls, encode, isDynamic)
  {
    hide Pow2, Or, Unpack, SlotFor, FromBigEndian, Encodes, PlanEncodes, HoldsLiterals;
    ghost var small := |Literals(calls)| <= 128;
    var commands: seq<nat>, state: seq<Bytes> := [], [];
    assert calls[..0] == [];
    NothingBuilt(encode, isDynamic, selectorOf);
    for i := 0 to |calls|
      invariant HoldsLiterals(state, Literals(calls[..i]), encode)
      invariant ArgsFit(calls[..i])
      invariant small ==> PlanEncodes(commands, calls[..i], isDynamic, selectorOf)
    {
      LiteralsPrefix(calls, i);
      var call := calls[i];
      ghost var before := |state|;
      var argSlots;
      argSlots, state := PlaceLiterals(call.args, state, Literals(calls[..i]), encode, isDynamic);
      var command := PackCommand(selectorOf(call.signature), call.target, argSlots, FLAG_CALL, ARG_UNUSED);
      if small && |argSlots| <= MAX_COMMAND_ARGS {
        CallFits(call, selectorOf, argSlots);
        PackedEncodes(command.value, call, before, argSlots, isDynamic, selectorOf);
        PlanExtends(commands, calls, i, command.value, isDynamic, selectorOf);
      }
      if command.Err? {
        return Err(command.error);
      }
      commands := commands + [command.value];
    }
    assert calls[..|calls|] == calls;
    if Addressable(calls, isDynamic) {
      PlanReadsBack(commands, state, calls, encode, isDynamic, selectorOf);
    }
    return Ok((commands, state));
  }

  ghost function PreparedCommand(call: LiteralCall, selectorOf: string -> Bytes, argSlots: seq<nat>): Command
    requires |argSlots| <= MAX_COMMAND_ARGS
  {
    Command(FromBigEndian(selectorOf(call.signature)), FLAG_CALL, Pad(argSlots), ARG_UNUSED, call.target)
  }

  lemma CallFits(call: LiteralCall, selectorOf: string -> Bytes, argSlots: seq<nat>)
    requires |selectorOf(call.signature)| == 4
    requires |argSlots| <= MAX_COMMAND_ARGS
    requires forall j :: 0 <= j < |argSlots| ==> argSlots[j] < 256
    ensures PreparedCommand(call, selectorOf, argSlots).Fits()
  {
    hide Pow2;
    SelectorFits(selectorOf(call.signature));
  }

  lemma PackedEncodes(word: nat, call: LiteralCall, base: nat, argSlots: seq<nat>,
                      isDynamic: string -> bool, selectorOf: string -> Bytes)
    requires |argSlots| == |call.args| <= MAX_COMMAND_ARGS
    requires Unpack(word) == PreparedCommand(call, selectorOf, argSlots)
    requires forall j :: 0 <= j < |call.args| ==> argSlots[j] == SlotFor(base + j, isDynamic(call.args[j].abiType))
    ensures Encodes(word, call, base, isDynamic, selectorOf)
  {
    hide Pow2, Or, Unpack;
    var c := Unpack(word);
    assert forall j :: 0 <= j < |argSlots| ==> c.slots[j] == argSlots[j];
  }

  ghost predicate HoldsLiterals(state: seq<Bytes>, args: seq<LiteralArg>, encode: LiteralArg -> Bytes) {
    && |state| == |args|
    && forall k :: 0 <= k < |args| ==> state[k] == encode(args[k])
  }

  /** The inner loop of the builder: one new state cell and one slot per argument. */
  method PlaceLiterals(
      args: seq<LiteralArg>, before: seq<Bytes>, ghost placed: seq<LiteralArg>,
      encode: LiteralArg -> Bytes, isDynamic: string -> bool)
      returns (argSlots: seq<nat>, state: seq<Bytes>)
    requires HoldsLiterals(before, placed, encode)
    ensures HoldsLiterals(state, placed + args, encode)
    ensures |argSlots| == |args| && |before| == |placed|
    ensures forall j :: 0 <= j < |args| ==> argSlots[j] == SlotFor(|before| + j, isDynamic(args[j].abiType))
    ensures |before| + |args| <= 128 ==> forall j :: 0 <= j < |args| ==> argSlots[j] < 256
  {
    hide Pow2, Or;
    argSlots, state := [], before;
    for j := 0 to |args|
      invariant |argSlots| == j
      invariant HoldsLiterals(state, placed + args[..j], encode)
      invariant forall k :: 0 <= k < j ==> argSlots[k] == SlotFor(|before| + k, isDynamic(args[k].abiType))
      invariant |before| + |args| <= 128 ==> forall k :: 0 <= k < j ==> argSlots[k] < 256
    {
      var arg := args[j];
      var slot := |state|;
      if |state| < 128 {
        SlotValue(slot, isDynamic(arg.abiType));
      }
      state := state + [encode(arg)];
      if isDynamic(arg.abiType) {
        slot := Or(slot, DYNAMIC_BIT);
      }
      argSlots := argSlots + [slot];
      assert placed + args[..j + 1] == (placed + args[..j]) + [arg];
    }
    assert args[..|args|] == args;
  }

  /** The selector's four bytes, the first one on top. */
  lemma SelectorValue(a: Byte, b: Byte, c: Byte, d: Byte)
    ensures FromBigEndian([a, b, c, d]) == a * 0x100_0000 + b * 0x1_0000 + c * 0x100 + d
  {
    assert [a, b, c, d][..3] == [a, b, c] && [a, b, c][..2] == [a, b];
    assert [a, b][..1] == [a] && [a][..0] == [];
    assert FromBigEndian([a]) == a;
    assert FromBigEndian([a, b]) == 256 * a + b;
    assert FromBigEndian([a, b, c]) == 256 * FromBigEndian([a, b]) + c;
  }

  lemma SelectorFits(selector: Bytes)
    requires |selector| == 4
    ensures FromBigEndian(selector) < Pow2(32)
  {
    var a, b, c := selector[..3], selector[..2], selector[..1];
    assert a[..2] == b && b[..1] == c && c[..0] == [];
    assert FromBigEndian(c) < 256;
    assert FromBigEndian(b) < 256 * 256;
    assert FromBigEndian(a) < 256 * 256 * 256;
    Pow2Add(16, 16);
    Pow2Add(8, 8);
    assert Pow2(8) == 256;
  }
}
