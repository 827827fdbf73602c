/**
 * The register map, its validator, and the decoding of raw 16-bit words
 * (backend/genwatch/modbus/registers.py).
 */
module Registers {
  import opened Prelude

  datatype RegType = U16 | S16 | U32 | U32Lo | S32 | Bitfld | Enum | OtherType

  datatype Tier = Prime | Base | OtherTier

  datatype RegisterDef = RegisterDef(
    name: string,
    addr: int,
    fc: int,
    kind: RegType,
    tier: Tier,
    scale: real,
    warnRange: Option<(real, real)>,
    alarmRange: Option<(real, real)>)
  {
    /** How many 16-bit registers this definition occupies. */
    function Words(): nat {
      if kind == U32 || kind == U32Lo || kind == S32 then 2 else 1
    }

    /** First address after the register. */
    function End(): int {
      addr + Words()
    }

    predicate Covers(w: int) {
      addr <= w < End()
    }
  }

  datatype ControlDef = ControlDef(name: string, addr: int, fc: int, value: int, values: seq<int>) {
    function WriteValues(): seq<int> {
      if values != [] then values else [value]
    }
  }

  /** One alarm bit of a bitfield register, with its two display filters. */
  datatype AlarmBit = AlarmBit(
    register: string,
    mask: int,
    code: string,
    suppressIn: set<string>,
    minPolls: int)

  /** First-match rule for engine state and for panel mode. */
  datatype BitRule = BitRule(outcome: string, register: string, mask: int)

  datatype RegisterMap = RegisterMap(
    slave: int,
    readFc: int,
    primePollMs: int,
    basePollMs: int,
    engineStateBits: seq<BitRule>,
    alarmBits: seq<AlarmBit>,
    panelModeBits: seq<BitRule>,
    registers: seq<RegisterDef>,
    controls: seq<ControlDef>,
    numericAlarms: bool)
  {
    function PollMs(t: Tier): int {
      if t == Prime then primePollMs else basePollMs
    }
  }

  // ---- values and bit tests -------------------------------------------------

  /** A decoded value: an int, or a float once a scale was applied. */
  datatype Value = IntVal(n: int) | FloatVal(x: real) {
    function AsInt(): int {
      if IntVal? then n else Truncate(x)
    }

    function AsReal(): real {
      if IntVal? then n as real else x
    }
  }

  /** Bitwise "and" of two unbounded two's-complement integers. */
  function And(a: int, b: int): int
    decreases Abs(a)
  {
    if a == 0 || b == 0 then 0
    else if a == -1 then b
    else 2 * And(a / 2, b / 2) + (a % 2) * (b % 2)
  }

  /** Bit i of the two's-complement representation of a. */
  predicate Bit(a: int, i: nat)
    decreases i
  {
    if i == 0 then a % 2 == 1 else Bit(a / 2, i - 1)
  }

  predicate AllBitsSet(raw: int, mask: int) {
    And(raw, mask) == mask
  }

  predicate AnyBitSet(raw: int, mask: int) {
    And(raw, mask) != 0
  }

  lemma {:induction false} MinusOneBit(i: nat)
    ensures Bit(-1, i)
    ensures !Bit(0, i)
  {
    if i > 0 { MinusOneBit(i - 1); }
  }

  /** And really is the bitwise conjunction, for negative operands too. */
  lemma {:induction false} AndBit(a: int, b: int, i: nat)
    ensures Bit(And(a, b), i) == (Bit(a, i) && Bit(b, i))
    decreases i
  {
    MinusOneBit(i);
    if a != 0 && b != 0 && a != -1 {
      var r := And(a / 2, b / 2);
      var low := (a % 2) * (b % 2);
      assert low == 0 || low == 1;
      assert (2 * r + low) / 2 == r && (2 * r + low) % 2 == low;
      if i > 0 { AndBit(a / 2, b / 2, i - 1); }
    }
  }

  /** All ones in the low 16 bits meet every mask the validator accepts. */
  lemma {:induction false} AndLowOnes(mask: int, width: nat)
    requires 0 <= mask < Pow2(width)
    ensures And(Pow2(width) - 1, mask) == mask
  {
    if width > 0 && mask > 0 {
      AndLowOnes(mask / 2, width - 1);
      var ones := Pow2(width) - 1;
      assert ones / 2 == Pow2(width - 1) - 1 && ones % 2 == 1;
      assert And(ones, mask) == 2 * And(ones / 2, mask / 2) + (ones % 2) * (mask % 2);
    }
  }

  function Pow2(n: nat): nat {
    if n == 0 then 1 else 2 * Pow2(n - 1)
  }

  // ---- derivations ------------------------------------------------------------

  type Values = map<string, Value>

  predicate Matches(rule: BitRule, values: Values) {
    rule.register in values && AllBitsSet(values[rule.register].AsInt(), rule.mask)
  }

  /** Outcome of the first rule whose mask is fully set; "unknown" when there is none. */
  function FirstMatch(rules: seq<BitRule>, values: Values): string {
    if rules == [] then "unknown"
    else if Matches(rules[0], values) then rules[0].outcome
    else FirstMatch(rules[1..], values)
  }

  /** The winning rule is the earliest that matches, and a miss means that none does. */
  lemma {:induction false} FirstMatchIsEarliest(rules: seq<BitRule>, values: Values)
    ensures (forall i :: 0 <= i < |rules| ==> !Matches(rules[i], values)) ==> FirstMatch(rules, values) == "unknown"
    ensures forall i :: 0 <= i < |rules| && Matches(rules[i], values)
              && (forall j :: 0 <= j < i ==> !Matches(rules[j], values))
              ==> FirstMatch(rules, values) == rules[i].outcome
  {
    if rules != [] {
      var rest := rules[1..];
      FirstMatchIsEarliest(rest, values);
      assert forall i :: 0 <= i < |rest| ==> rest[i] == rules[i + 1];
      forall i | 0 <= i < |rules| && Matches(rules[i], values)
               && (forall j :: 0 <= j < i ==> !Matches(rules[j], values))
        ensures FirstMatch(rules, values) == rules[i].outcome
      {
        if i > 0 {
          assert rest[i - 1] == rules[i];
          assert forall j :: 0 <= j < i - 1 ==> rest[j] == rules[j + 1];
        }
      }
      assert (forall i :: 0 <= i < |rules| ==> !Matches(rules[i], values)) ==>
          (forall i :: 0 <= i < |rest| ==> !Matches(rest[i], values));
    }
  }

  predicate BitIsSet(ab: AlarmBit, values: Values) {
    ab.register in values && AnyBitSet(values[ab.register].AsInt(), ab.mask)
  }

  /** The alarm bits that are set, in map order. */
  function SetAlarms(bits: seq<AlarmBit>, values: Values): (r: seq<AlarmBit>)
    ensures forall ab :: ab in r <==> ab in bits && BitIsSet(ab, values)
  {
    if bits == [] then []
    else
      var rest := SetAlarms(bits[1..], values);
      assert bits == [bits[0]] + bits[1..];
      if BitIsSet(bits[0], values) then [bits[0]] + rest else rest
  }

  lemma {:induction false} SetAlarmsAppend(bits: seq<AlarmBit>, ab: AlarmBit, values: Values)
    ensures SetAlarms(bits + [ab], values)
         == SetAlarms(bits, values) + (if BitIsSet(ab, values) then [ab] else [])
  {
    if bits == [] {
      assert bits + [ab] == [ab];
      assert [ab][1..] == [];
    } else {
      assert (bits + [ab])[1..] == bits[1..] + [ab];
      SetAlarmsAppend(bits[1..], ab, values);
    }
  }

  method DeriveActiveAlarms(rm: RegisterMap, values: Values) returns (active: seq<AlarmBit>)
    ensures active == SetAlarms(rm.alarmBits, values)
  {
    active := [];
    for i := 0 to |rm.alarmBits|
      invariant active == SetAlarms(rm.alarmBits[..i], values)
    {
      var ab := rm.alarmBits[i];
      SetAlarmsAppend(rm.alarmBits[..i], ab, values);
      assert rm.alarmBits[..i + 1] == rm.alarmBits[..i] + [ab];
      if ab.register in values && AnyBitSet(values[ab.register].AsInt(), ab.mask) {
        active := active + [ab];
      }
    }
    assert rm.alarmBits[..|rm.alarmBits|] == rm.alarmBits;
  }

  // ---- decoding ---------------------------------------------------------------

  function Word16(w: int): int {
    w % 0x1_0000
  }

  function RawOf(reg: RegisterDef, words: seq<int>): Option<int> {
    if words == [] then None
    else match reg.kind
      case S16 =>
        var v := Word16(words[0]);
        Some(if v >= 0x8000 then v - 0x1_0000 else v)
      case U32 =>
        if |words| < 2 then None else Some(Word16(words[0]) * 0x1_0000 + Word16(words[1]))
      case U32Lo =>
        if |words| < 2 then None else Some(Word16(words[1]))
      case S32 =>
        if |words| < 2 then None
        else
          var u := Word16(words[0]) * 0x1_0000 + Word16(words[1]);
          Some(if u < 0x8000_0000 then u else u - 0x1_0000_0000)
      case _ => Some(Word16(words[0]))
  }

  function DecodeValue(reg: RegisterDef, words: seq<int>): Option<Value> {
    match RawOf(reg, words)
    case None => None
    case Some(v) =>
      if reg.scale != 1.0 && reg.kind != Bitfld && reg.kind != Enum
      then Some(FloatVal(v as real * reg.scale))
      else Some(IntVal(v))
  }

  /** The big-endian words that carry v: the writer's side of DecodeValue. */
  function EncodeRaw(kind: RegType, v: int): seq<int> {
    match kind
    case U32 => [v / 0x1_0000 % 0x1_0000, v % 0x1_0000]
    case S32 => [v / 0x1_0000 % 0x1_0000, v % 0x1_0000]
    case U32Lo => [0, v % 0x1_0000]
    case _ => [v % 0x1_0000]
  }

  predicate Representable(kind: RegType, v: int) {
    match kind
    case S16 => -0x8000 <= v < 0x8000
    case U32 => 0 <= v < 0x1_0000_0000
    case S32 => -0x8000_0000 <= v < 0x8000_0000
    case _ => 0 <= v < 0x1_0000
  }

  /** Round trip: a number the register type can hold survives the wire, sign included. */
  lemma DecodeEncode(reg: RegisterDef, v: int)
    requires Representable(reg.kind, v)
    ensures |EncodeRaw(reg.kind, v)| == reg.Words()
    ensures RawOf(reg, EncodeRaw(reg.kind, v)) == Some(v)
  {
    if reg.kind == U32 || reg.kind == S32 {
      assert v == v / 0x1_0000 * 0x1_0000 + v % 0x1_0000;
    }
  }

  /** A register handed exactly its own number of words always decodes. */
  lemma DecodeTotal(reg: RegisterDef, words: seq<int>)
    requires |words| == reg.Words()
    ensures DecodeValue(reg, words).Some?
  {
  }

  // ---- validation ---------------------------------------------------------------

  datatype MapError =
    | BadSlave | BadReadFc
    | DuplicateRegister(name: string)
    | BadRegisterFc(name: string)
    | BadTier(name: string)
    | BadAddress(name: string)
    | WordOverlap(addr: int, prior: string, name: string)
    | UnknownRegister(name: string)
    | BadMask(code: string)
    | DuplicateControl(name: string)
    | BadWriteFc(name: string)
    | BadControlAddress(name: string)
    | BadValueCount(name: string)
    | NoRegisters

  predicate Overlap(a: RegisterDef, b: RegisterDef) {
    exists w {:trigger a.Covers(w)} :: a.addr <= w < a.End() && a.Covers(w) && b.Covers(w)
  }

  function Names(regs: seq<RegisterDef>): set<string> {
    set r | r in regs :: r.name
  }

  predicate RegisterOk(r: RegisterDef) {
    r.fc in {3, 4} && r.tier != OtherTier && 0 <= r.addr <= 0xFFFF
  }

  predicate DistinctNames(regs: seq<RegisterDef>) {
    forall i, j :: 0 <= i < j < |regs| ==> regs[i].name != regs[j].name
  }

  predicate ControlOk(c: ControlDef) {
    c.fc in {6, 16} && 0 <= c.addr <= 0xFFFF && (c.fc == 6 ==> |c.WriteValues()| == 1)
  }

  /** No two registers share a word. */
  predicate NoSharedWord(regs: seq<RegisterDef>) {
    forall i, j :: 0 <= i < j < |regs| ==> !Overlap(regs[i], regs[j])
  }

  /** What the validator's overlap scan establishes: an owner with an empty name is invisible to it. */
  predicate NoVisibleOverlap(regs: seq<RegisterDef>) {
    forall i, j :: 0 <= i < j < |regs| && regs[i].name != "" ==> !Overlap(regs[i], regs[j])
  }

  predicate RegistersOk(regs: seq<RegisterDef>) {
    && DistinctNames(regs)
    && (forall i :: 0 <= i < |regs| ==> RegisterOk(regs[i]))
    && NoVisibleOverlap(regs)
  }

  predicate RulesOk(rm: RegisterMap) {
    && (forall i :: 0 <= i < |rm.engineStateBits| ==> rm.engineStateBits[i].register in Names(rm.registers))
    && (forall i :: 0 <= i < |rm.alarmBits| ==>
          rm.alarmBits[i].register in Names(rm.registers) && 0 < rm.alarmBits[i].mask <= 0xFFFF)
    && (forall i :: 0 <= i < |rm.panelModeBits| ==>
          rm.panelModeBits[i].register in Names(rm.registers) && 0 < rm.panelModeBits[i].mask <= 0xFFFF)
  }

  predicate ControlsOk(rm: RegisterMap) {
    && (forall i :: 0 <= i < |rm.controls| ==>
          ControlOk(rm.controls[i]) && rm.controls[i].name !in Names(rm.registers))
    && (forall i, j :: 0 <= i < j < |rm.controls| ==> rm.controls[i].name != rm.controls[j].name)
  }

  /** The maps that load: exactly those for which the validator reports no error. */
  predicate Accepted(rm: RegisterMap) {
    && 1 <= rm.slave <= 247
    && rm.readFc in {3, 4}
    && RegistersOk(rm.registers)
    && RulesOk(rm)
    && ControlsOk(rm)
    && rm.registers != []
  }

  /** Register i is the last to cover word w. */
  predicate Owns(regs: seq<RegisterDef>, i: int, w: int) {
    0 <= i < |regs| && regs[i].Covers(w) && forall j :: i < j < |regs| ==> !regs[j].Covers(w)
  }

  /** Ties the dictionary of occupied words to the registers scanned so far. */
  ghost predicate OccupiedBy(occupied: map<int, string>, regs: seq<RegisterDef>) {
    && (forall i, w {:trigger regs[i].Covers(w)} :: 0 <= i < |regs| && regs[i].Covers(w) ==> w in occupied)
    && (forall w :: w in occupied ==> exists i :: Owns(regs, i, w) && regs[i].name == occupied[w])
  }

  /** The scan so far found nothing wrong and the next register brings a new name. */
  ghost predicate CleanScan(r: RegisterDef, occupied: map<int, string>, before: seq<RegisterDef>) {
    OccupiedBy(occupied, before) && RegistersOk(before) && r.name !in Names(before)
  }

  /** The word has an owner the overlap test can see, and it is not r. */
  predicate Clashes(occupied: map<int, string>, r: RegisterDef, w: int) {
    w in occupied && occupied[w] != "" && occupied[w] != r.name
  }

  /** The words of one register: each clash is an error, and each word now belongs to the register. */
  method ScanWords(r: RegisterDef, occupied: map<int, string>)
    returns (claimed: map<int, string>, errors: seq<MapError>)
    ensures forall w :: w in claimed <==> w in occupied || r.Covers(w)
    ensures forall w :: w in claimed ==> claimed[w] == if r.Covers(w) then r.name else occupied[w]
    ensures errors == [] <==> forall w :: r.addr <= w < r.End() ==> !Clashes(occupied, r, w)
  {
    claimed, errors := occupied, [];
    for w := r.addr to r.End()
      invariant forall k :: k in claimed <==> k in occupied || r.addr <= k < w
      invariant forall k :: k in claimed ==> claimed[k] == if r.addr <= k < w then r.name else occupied[k]
      invariant errors == [] <==> forall k :: r.addr <= k < w ==> !Clashes(occupied, r, k)
    {
      var prior := if w in claimed then claimed[w] else "";
      assert Clashes(occupied, r, w) <==> prior != "" && prior != r.name;
      if prior != "" && prior != r.name {
        errors := errors + [WordOverlap(w, prior, r.name)];
      }
      claimed := claimed[w := r.name];
    }
  }

  method ClaimWords(r: RegisterDef, occupied: map<int, string>, ghost before: seq<RegisterDef>)
    returns (claimed: map<int, string>, errors: seq<MapError>)
    ensures CleanScan(r, occupied, before) ==>
              OccupiedBy(claimed, before + [r]) && (errors == [] <==> NoVisibleOverlap(before + [r]))
  {
    claimed, errors := ScanWords(r, occupied);
    if CleanScan(r, occupied, before) {
      ClaimedIsOccupied(r, occupied, claimed, before);
      VisibleOverlapExtends(r, occupied, before);
    }
  }

  lemma OwnsAppend(before: seq<RegisterDef>, r: RegisterDef, i: int, w: int)
    ensures r.Covers(w) ==> Owns(before + [r], |before|, w)
    ensures !r.Covers(w) && Owns(before, i, w) ==> Owns(before + [r], i, w)
  {
  }

  lemma ClaimedIsOccupied(r: RegisterDef, occupied: map<int, string>, claimed: map<int, string>,
                          before: seq<RegisterDef>)
    requires OccupiedBy(occupied, before)
    requires forall w :: w in claimed <==> w in occupied || r.Covers(w)
    requires forall w :: w in claimed ==> claimed[w] == if r.Covers(w) then r.name else occupied[w]
    ensures OccupiedBy(claimed, before + [r])
  {
    var after := before + [r];
    forall w | w in claimed ensures exists i :: Owns(after, i, w) && after[i].name == claimed[w] {
      if r.Covers(w) {
        OwnsAppend(before, r, |before|, w);
        assert after[|before|].name == claimed[w];
      } else {
        var i :| Owns(before, i, w) && before[i].name == occupied[w];
        OwnsAppend(before, r, i, w);
        assert after[i].name == claimed[w];
      }
    }
  }

  /** A clash is a word of r that an earlier, named register owns. */
  lemma ClashIsOverlap(r: RegisterDef, occupied: map<int, string>, before: seq<RegisterDef>, w: int)
    requires OccupiedBy(occupied, before) && r.Covers(w) && Clashes(occupied, r, w)
    ensures !NoVisibleOverlap(before + [r])
  {
    var after := before + [r];
    var i :| Owns(before, i, w) && before[i].name == occupied[w];
    assert after[i].Covers(w) && after[|before|].Covers(w);
    assert Overlap(after[i], after[|before|]);
  }

  /** Without a clash an earlier named register has no word of r: the last owner of such a word would be nameless. */
  lemma NoClashNoOverlap(r: RegisterDef, occupied: map<int, string>, before: seq<RegisterDef>, i: nat, w: int)
    requires OccupiedBy(occupied, before) && NoVisibleOverlap(before) && r.name !in Names(before)
    requires i < |before| && before[i].name != "" && before[i].Covers(w) && r.Covers(w)
    ensures Clashes(occupied, r, w)
  {
    var m :| Owns(before, m, w) && before[m].name == occupied[w];
    assert i <= m;
    if i < m { assert Overlap(before[i], before[m]); }
  }

  lemma VisibleOverlapExtends(r: RegisterDef, occupied: map<int, string>, before: seq<RegisterDef>)
    requires OccupiedBy(occupied, before) && NoVisibleOverlap(before) && r.name !in Names(before)
    ensures NoVisibleOverlap(before + [r]) <==> forall w :: r.addr <= w < r.End() ==> !Clashes(occupied, r, w)
  {
    var after := before + [r];
    if w :| r.addr <= w < r.End() && Clashes(occupied, r, w) {
      ClashIsOverlap(r, occupied, before, w);
    } else {
      forall i, j | 0 <= i < j < |after| && after[i].name != "" ensures !Overlap(after[i], after[j]) {
        if j < |before| {
          assert !Overlap(before[i], before[j]);
        } else if w :| after[i].Covers(w) && after[j].Covers(w) {
          NoClashNoOverlap(r, occupied, before, i, w);
        }
      }
    }
  }

  method ValidateRegisters(regs: seq<RegisterDef>) returns (errors: seq<MapError>, names: set<string>)
    ensures errors == [] <==> RegistersOk(regs)
    ensures names == Names(regs)
  {
    errors, names := [], {};
    var occupied: map<int, string> := map[];
    for i := 0 to |regs|
      invariant names == Names(regs[..i])
      invariant errors == [] <==> RegistersOk(regs[..i])
      invariant errors == [] ==> OccupiedBy(occupied, regs[..i])
    {
      var r := regs[i];
      ghost var before := regs[..i];
      assert regs[..i + 1] == before + [r];
      RegistersOkExtends(before, r);
      var local: seq<MapError> := [];
      if r.name in names { local := local + [DuplicateRegister(r.name)]; }
      names := names + {r.name};
      if r.fc !in {3, 4} { local := local + [BadRegisterFc(r.name)]; }
      if r.tier == OtherTier { local := local + [BadTier(r.name)]; }
      if r.addr < 0 || r.addr > 0xFFFF { local := local + [BadAddress(r.name)]; }
      var clash: seq<MapError>;
      occupied, clash := ClaimWords(r, occupied, before);
      errors := errors + local + clash;
    }
    assert regs[..|regs|] == regs;
  }

  lemma RegistersOkExtends(before: seq<RegisterDef>, r: RegisterDef)
    ensures Names(before + [r]) == Names(before) + {r.name}
    ensures RegistersOk(before + [r]) <==>
              RegistersOk(before) && r.name !in Names(before) && RegisterOk(r) && NoVisibleOverlap(before + [r])
  {
    var after := before + [r];
    assert after[|before|] == r;
    assert forall i :: 0 <= i < |before| ==> after[i] == before[i];
    forall x | x in after ensures x in before || x == r {}
    if RegistersOk(after) {
      forall i, j | 0 <= i < j < |before| ensures before[i].name != before[j].name {
        assert after[i].name != after[j].name;
      }
      forall i, j | 0 <= i < j < |before| && before[i].name != "" ensures !Overlap(before[i], before[j]) {
        assert !Overlap(after[i], after[j]);
      }
      forall i | 0 <= i < |before| ensures before[i].name != r.name {
        assert after[i].name != after[|before|].name;
      }
    }
  }

  method ValidateRules(rm: RegisterMap, names: set<string>) returns (errors: seq<MapError>)
    requires names == Names(rm.registers)
    ensures errors == [] <==> RulesOk(rm)
  {
    errors := [];
    for i := 0 to |rm.engineStateBits|
      invariant errors == [] <==> forall k :: 0 <= k < i ==> rm.engineStateBits[k].register in names
    {
      if rm.engineStateBits[i].register !in names {
        errors := errors + [UnknownRegister(rm.engineStateBits[i].register)];
      }
    }
    ghost var statesOk := errors == [];
    for i := 0 to |rm.alarmBits|
      invariant errors == [] <==> statesOk && forall k :: 0 <= k < i ==>
                  rm.alarmBits[k].register in names && 0 < rm.alarmBits[k].mask <= 0xFFFF
    {
      var ab := rm.alarmBits[i];
      if ab.register !in names { errors := errors + [UnknownRegister(ab.register)]; }
      if ab.mask <= 0 || ab.mask > 0xFFFF { errors := errors + [BadMask(ab.code)]; }
    }
    ghost var alarmsOk := errors == [];
    for i := 0 to |rm.panelModeBits|
      invariant errors == [] <==> alarmsOk && forall k :: 0 <= k < i ==>
                  rm.panelModeBits[k].register in names && 0 < rm.panelModeBits[k].mask <= 0xFFFF
    {
      var pm := rm.panelModeBits[i];
      if pm.register !in names { errors := errors + [UnknownRegister(pm.register)]; }
      if pm.mask <= 0 || pm.mask > 0xFFFF { errors := errors + [BadMask(pm.outcome)]; }
    }
  }

  method ValidateControls(rm: RegisterMap, names: set<string>) returns (errors: seq<MapError>)
    requires names == Names(rm.registers)
    ensures errors == [] <==> ControlsOk(rm)
  {
    errors := [];
    var seen: set<string> := {};
    for i := 0 to |rm.controls|
      invariant seen == set k | 0 <= k < i :: rm.controls[k].name
      invariant errors == [] <==>
                  && (forall k :: 0 <= k < i ==> ControlOk(rm.controls[k]) && rm.controls[k].name !in names)
                  && (forall j, k :: 0 <= j < k < i ==> rm.controls[j].name != rm.controls[k].name)
    {
      var c := rm.controls[i];
      if c.name in seen || c.name in names { errors := errors + [DuplicateControl(c.name)]; }
      seen := seen + {c.name};
      if c.fc !in {6, 16} { errors := errors + [BadWriteFc(c.name)]; }
      if c.addr < 0 || c.addr > 0xFFFF { errors := errors + [BadControlAddress(c.name)]; }
      if c.fc == 6 && |c.WriteValues()| != 1 { errors := errors + [BadValueCount(c.name)]; }
    }
  }

  /** The validator is sound and complete for Accepted. */
  method ValidateRegisterMap(rm: RegisterMap) returns (errors: seq<MapError>)
    ensures errors == [] <==> Accepted(rm)
  {
    errors := [];
    if !(1 <= rm.slave <= 247) { errors := errors + [BadSlave]; }
    if rm.readFc !in {3, 4} { errors := errors + [BadReadFc]; }
    var regErrors, names := ValidateRegisters(rm.registers);
    var ruleErrors := ValidateRules(rm, names);
    var controlErrors := ValidateControls(rm, names);
    errors := errors + regErrors + ruleErrors + controlErrors;
    if rm.registers == [] { errors := errors + [NoRegisters]; }
  }

  /** The register names in map order. */
  function NameList(regs: seq<RegisterDef>): seq<string> {
    seq(|regs|, i requires 0 <= i < |regs| => regs[i].name)
  }

  /** Only the last register of the map may be nameless. */
  predicate NamedButLast(names: seq<string>) {
    forall i :: 0 <= i < |names| - 1 ==> names[i] != ""
  }

  /** When only the last register may be nameless, acceptance means that no word has two owners. */
  lemma AcceptedDisjoint(rm: RegisterMap)
    requires Accepted(rm) && NamedButLast(NameList(rm.registers))
    ensures NoSharedWord(rm.registers)
  {
    var regs := rm.registers;
    forall i, j | 0 <= i < j < |regs| ensures !Overlap(regs[i], regs[j]) {
      assert NameList(regs)[i] == regs[i].name;
    }
  }

  /** One word per register, at consecutive addresses; register k + 1 repeats the address of register k. */
  function Stacked(names: seq<string>, k: nat): seq<RegisterDef> {
    seq(|names|, i requires 0 <= i < |names| =>
      RegisterDef(names[i], if i <= k then i else i - 1, 3, U16, Prime, 1.0, None, None))
  }

  /** A nameless register ahead of another can share its word with the next one and still be accepted. */
  lemma NamelessRegisterHidesOverlap(names: seq<string>, k: nat) returns (rm: RegisterMap)
    requires |names| <= 0x1_0000 && k < |names| - 1 && names[k] == ""
    requires forall i, j :: 0 <= i < j < |names| ==> names[i] != names[j]
    ensures Accepted(rm) && NameList(rm.registers) == names && !NoSharedWord(rm.registers)
  {
    var regs := Stacked(names, k);
    rm := RegisterMap(1, 3, 1500, 15000, [], [], [], regs, [], false);
    forall i, j | 0 <= i < j < |regs| && regs[i].name != "" ensures !Overlap(regs[i], regs[j]) {
      assert regs[i].addr < regs[j].addr;
    }
    assert regs[k].Covers(k) && regs[k + 1].Covers(k);
    assert Overlap(regs[k], regs[k + 1]);
  }

  /**
   * For any list of distinct names, as many as there are addresses at most: the validator guarantees
   * private words to every map with those names exactly when none but the last is empty.
   */
  lemma PrivateWordsIffNamed(names: seq<string>)
    requires |names| <= 0x1_0000
    requires forall i, j :: 0 <= i < j < |names| ==> names[i] != names[j]
    ensures (forall rm :: Accepted(rm) && NameList(rm.registers) == names ==> NoSharedWord(rm.registers))
       <==> NamedButLast(names)
  {
    if NamedButLast(names) {
      forall rm | Accepted(rm) && NameList(rm.registers) == names ensures NoSharedWord(rm.registers) {
        AcceptedDisjoint(rm);
      }
    } else {
      var k :| 0 <= k < |names| - 1 && names[k] == "";
      var rm := NamelessRegisterHidesOverlap(names, k);
    }
  }
}
