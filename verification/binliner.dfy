/** The bit sequence: a fixed-width string over '0' and '1' built from
    truthy/falsy arguments, read and written one position at a time, and
    tested against its validation rule. The PHP object is mutated in place by
    `set`, which returns the same object; here `Set` returns the updated state. */
module Binliner {
  import opened Results
  import opened PhpValue
  import opened BitString
  import Validation

  /** The first constructor argument. Anything that is not a PHP array is
      ignored (`NoConfig`); in an array, a missing key and a key holding null
      are both `Null`, since `isset` treats them alike. */
  datatype Config =
    | NoConfig
    | Options(size: Value, validation: Value)

  /** A constructed object: its size, the stored bit string, and its rule. */
  datatype State = State(size: nat, value: string, rule: Validation.Rule) {
    /** The object's invariant: the stored string is `size` bits long. */
    predicate Valid() {
      |value| == size && IsBits(value)
    }
  }

  /** True iff the configuration carries an integer `size`. */
  predicate HasExplicitSize(config: Config) {
    config.Options? && config.size.Int?
  }

  /** True iff the configuration carries a validation payload. */
  predicate HasValidation(config: Config) {
    config.Options? && !config.validation.Null?
  }

  /** The bits of the arguments, in order: '0' for a falsy one, '1' otherwise. */
  function ArgBits(args: seq<Value>): (r: string)
    ensures |r| == |args|
    ensures forall i | 0 <= i < |args| :: r[i] == '1' <==> Truthy(args[i])
    ensures IsBits(r)
  {
    if |args| == 0 then [] else ArgBits(args[..|args| - 1]) + [BitChar(args[|args| - 1])]
  }

  /** The constructor `new Binliner($config, ...$args)`. The size check comes
      first, then the rule: the validation payload through the rule's own
      constructor, or else a string of one '1' per argument. */
  function New(config: Config, args: seq<Value>): (r: Result<State, BinlinerException>)
    ensures r.Err? && r.error.TooManyArguments? <==>
      HasExplicitSize(config) && |args| > Abs(config.size.i)
    ensures r.Err? && r.error.TooManyArguments? ==> r.error.size == Abs(config.size.i)
    ensures r.Err? && r.error.InvalidValidationType? <==>
      && !(HasExplicitSize(config) && |args| > Abs(config.size.i))
      && HasValidation(config) && Validation.New(config.validation).Err?
    ensures r.Err? && r.error.InvalidValidationType? ==>
      r.error == InvalidValidationType(TypeName(config.validation))
    ensures r.Err? ==> r.error.TooManyArguments? || r.error.InvalidValidationType?
    ensures r.Ok? ==> r.value.Valid()
    ensures r.Ok? ==> r.value.size == if HasExplicitSize(config) then Abs(config.size.i) else |args|
    ensures r.Ok? ==> |args| <= r.value.size
    ensures r.Ok? ==> forall i | 0 <= i < |args| :: r.value.value[i] == '1' <==> Truthy(args[i])
    ensures r.Ok? ==> forall i | |args| <= i < r.value.size :: r.value.value[i] == '0'
    ensures r.Ok? && HasValidation(config) ==> Validation.New(config.validation) == Ok(r.value.rule)
    ensures r.Ok? && !HasValidation(config) ==> r.value.rule == Validation.ExactStr(Repeat('1', |args|))
  {
    var size: nat := if HasExplicitSize(config) then Abs(config.size.i) else |args|;
    if HasExplicitSize(config) && |args| > size then
      Err(TooManyArguments(size))
    else
      var rule := if HasValidation(config) then Validation.New(config.validation)
                  else Ok(Validation.ExactStr(PadRight("", |args|, '1')));
      match rule
      case Err(e) => Err(e)
      case Ok(rule) =>
        var bits := ArgBits(args);
        Ok(State(size, PadRight(bits, size, '0'), rule))
  }

  /** `__toString()`: the stored string, through the string juggle. */
  function ToString(b: State): (s: string)
    requires b.Valid()
    ensures |s| == b.size && IsBits(s)
    ensures s == b.value
  {
    Validation.Juggle(b.value, "string").s
  }

  /** `intval()`: the stored string's base-2 value. It fits in `size` bits and
      determines the stored string. */
  function IntVal(b: State): (n: nat)
    requires b.Valid()
    ensures n < Pow2(b.size)
    ensures ToBits(n, b.size) == b.value
  {
    Validation.Juggle(b.value, "integer").i
  }

  /** `set($pos, $value)`: after normalising the position with `abs`, a
      position past the end throws; otherwise the one character there becomes
      the value's bit. */
  function Set(b: State, pos: int, v: Value): (r: Result<State, BinlinerException>)
    requires b.Valid()
    ensures r.Err? <==> Abs(pos) >= b.size
    ensures r.Err? ==> r.error == IllegalPosition(Abs(pos))
    ensures r.Ok? ==> r.value.Valid() && r.value.size == b.size && r.value.rule == b.rule
    ensures r.Ok? ==> (r.value.value[Abs(pos)] == '1' <==> Truthy(v))
    ensures r.Ok? ==> forall i | 0 <= i < b.size && i != Abs(pos) :: r.value.value[i] == b.value[i]
  {
    var p := Abs(pos);
    if p > b.size - 1 then Err(IllegalPosition(p))
    else Ok(b.(value := b.value[p := BitChar(v)]))
  }

  /** `get($pos, $type = 'integer')`: the same position check as `set`, then
      the one character there, juggled to `typ`. */
  function Get(b: State, pos: int, typ: string := "integer"): (r: Result<Value, BinlinerException>)
    requires b.Valid()
    ensures r.Err? <==> Abs(pos) >= b.size
    ensures r.Err? ==> r.error == IllegalPosition(Abs(pos))
    ensures r.Ok? && typ == "integer" ==>
      r.value == Int(if b.value[Abs(pos)] == '1' then 1 else 0)
    ensures r.Ok? && typ != "integer" ==> r.value == Str([b.value[Abs(pos)]])
  {
    var p := Abs(pos);
    if p > b.size - 1 then Err(IllegalPosition(p))
    else
      var bit := b.value[p..p + 1];
      assert bit == [b.value[p]] && IsBits(bit);
      Ok(Validation.Juggle(bit, typ))
  }

  /** `isValid()`: the rule applied to the stored string. A string rule
      compares the string form, an integer rule the integer form, and an
      array rule each element against the form of the element's own type. */
  function IsValid(b: State): (r: bool)
    requires b.Valid()
    ensures b.rule.Predicate? ==> r == b.rule.test(ToString(b))
    ensures b.rule.ExactStr? ==> (r <==> ToString(b) == b.rule.pattern)
    ensures b.rule.ExactInt? ==> (r <==> IntVal(b) == b.rule.number)
    ensures b.rule.AnyOf? ==> (r <==> exists k | 0 <= k < |b.rule.options| ::
      || (b.rule.options[k].Str? && b.rule.options[k].s == ToString(b))
      || (b.rule.options[k].Int? && b.rule.options[k].i == IntVal(b)))
  {
    Validation.IsValid(b.rule, b.value)
  }

  /** True iff no write of the chain targets position `i`. */
  predicate Untouched(writes: seq<(int, Value)>, i: nat) {
    forall k | 0 <= k < |writes| :: Abs(writes[k].0) != i
  }

  /** True iff write `k` is the last write of the chain to its position. */
  predicate IsLastWrite(writes: seq<(int, Value)>, k: nat)
    requires k < |writes|
  {
    forall j | k < j < |writes| :: Abs(writes[j].0) != Abs(writes[k].0)
  }

  /** True iff write `k` is the first write of the chain whose position is
      out of range for `size`. */
  predicate IsFirstIllegal(writes: seq<(int, Value)>, size: nat, k: nat)
    requires k < |writes|
  {
    && Abs(writes[k].0) >= size
    && forall j | 0 <= j < k :: Abs(writes[j].0) < size
  }

  /** A chain `$b->set(p0, v0)->set(p1, v1)->...`: each call acts on the
      object the previous one returned, and the first exception ends it. */
  function ApplyAll(b: State, writes: seq<(int, Value)>): (r: Result<State, BinlinerException>)
    requires b.Valid()
    ensures r.Ok? ==> r.value.Valid() && r.value.size == b.size && r.value.rule == b.rule
    ensures r.Ok? <==> forall k | 0 <= k < |writes| :: Abs(writes[k].0) < b.size
    decreases |writes|
  {
    if |writes| == 0 then Ok(b)
    else
      match Set(b, writes[0].0, writes[0].1)
      case Err(e) => Err(e)
      case Ok(b') =>
        var r := ApplyAll(b', writes[1..]);
        assert forall k | 1 <= k < |writes| :: writes[k] == writes[1..][k - 1];
        r
  }

  /** A failing chain throws for its first out-of-range position, naming that
      position's absolute value. */
  lemma {:induction false} ApplyAllFailsAtFirstIllegal(b: State, writes: seq<(int, Value)>)
    requires b.Valid()
    ensures ApplyAll(b, writes).Err? ==> exists k | 0 <= k < |writes| ::
      && IsFirstIllegal(writes, b.size, k)
      && ApplyAll(b, writes).error == IllegalPosition(Abs(writes[k].0))
    decreases |writes|
  {
    if |writes| > 0 {
      var tail := writes[1..];
      match Set(b, writes[0].0, writes[0].1)
      case Err(e) =>
        assert IsFirstIllegal(writes, b.size, 0);
      case Ok(b') =>
        ApplyAllFailsAtFirstIllegal(b', tail);
        var r := ApplyAll(b', tail);
        if r.Err? {
          var k :| 0 <= k < |tail| && IsFirstIllegal(tail, b.size, k) && r.error == IllegalPosition(Abs(tail[k].0));
          assert IsFirstIllegal(writes, b.size, k + 1);
        }
    }
  }

  /** After a successful chain, a position no write targets keeps its old bit,
      and the position of each last write holds that write's bit. */
  lemma {:induction false} ApplyAllLastWriteWins(b: State, writes: seq<(int, Value)>)
    requires b.Valid()
    ensures ApplyAll(b, writes).Ok? ==> forall i | 0 <= i < b.size && Untouched(writes, i) ::
      ApplyAll(b, writes).value.value[i] == b.value[i]
    ensures ApplyAll(b, writes).Ok? ==> forall k | 0 <= k < |writes| && IsLastWrite(writes, k) ::
      (ApplyAll(b, writes).value.value[Abs(writes[k].0)] == '1' <==> Truthy(writes[k].1))
    decreases |writes|
  {
    if |writes| > 0 && ApplyAll(b, writes).Ok? {
      var tail := writes[1..];
      var b' := Set(b, writes[0].0, writes[0].1).value;
      ApplyAllLastWriteWins(b', tail);
      assert ApplyAll(b, writes) == ApplyAll(b', tail);
      assert forall k | 1 <= k < |writes| :: writes[k] == tail[k - 1];
      assert forall i | 0 <= i < b.size && Untouched(writes, i) :: Untouched(tail, i);
      assert forall k | 1 <= k < |writes| && IsLastWrite(writes, k) :: IsLastWrite(tail, k - 1);
      assert IsLastWrite(writes, 0) ==> Untouched(tail, Abs(writes[0].0));
    }
  }

  /** Running one chain is running its first part and then, on the object
      that part returned, the rest: chained calls equal sequential calls. */
  lemma {:induction false} ChainIsSequential(b: State, first: seq<(int, Value)>, rest: seq<(int, Value)>)
    requires b.Valid()
    ensures ApplyAll(b, first + rest) ==
      match ApplyAll(b, first)
      case Err(e) => Err(e)
      case Ok(b') => ApplyAll(b', rest)
    decreases |first|
  {
    if |first| == 0 {
      assert first + rest == rest;
    } else {
      assert (first + rest)[1..] == first[1..] + rest;
      match Set(b, first[0].0, first[0].1)
      case Err(_) =>
      case Ok(b') => ChainIsSequential(b', first[1..], rest);
    }
  }

  /** Reading a position just written gives the written bit. */
  lemma GetAfterSet(b: State, pos: int, v: Value)
    requires b.Valid() && Abs(pos) < b.size
    ensures Set(b, pos, v).Ok?
    ensures Get(Set(b, pos, v).value, pos, "integer") == Ok(Int(if Truthy(v) then 1 else 0))
    ensures Get(Set(b, pos, v).value, pos, "string") == Ok(Str([BitChar(v)]))
  {
  }

  /** Writing one position twice keeps only the second write. */
  lemma SetLastWriteWins(b: State, pos: int, v: Value, w: Value)
    requires b.Valid() && Abs(pos) < b.size
    ensures Set(b, pos, v).Ok?
    ensures Set(Set(b, pos, v).value, pos, w) == Set(b, pos, w)
  {
    var p := Abs(pos);
    var once := Set(b, pos, w).value;
    var twice := Set(Set(b, pos, v).value, pos, w).value;
    assert twice.value == once.value;
  }

  /** Writes to two different positions commute. */
  lemma SetCommutes(b: State, p: int, v: Value, q: int, w: Value)
    requires b.Valid() && Abs(p) < b.size && Abs(q) < b.size && Abs(p) != Abs(q)
    ensures Set(b, p, v).Ok? && Set(b, q, w).Ok?
    ensures Set(Set(b, p, v).value, q, w) == Set(Set(b, q, w).value, p, v)
  {
    var pq := Set(Set(b, p, v).value, q, w).value;
    var qp := Set(Set(b, q, w).value, p, v).value;
    assert pq.value == qp.value;
  }

  /** Without an explicit size or a validation payload, an object and every
      object a chain of writes makes from it is valid exactly when all its
      bits are set. */
  lemma DefaultRuleMeansAllSet(config: Config, args: seq<Value>, writes: seq<(int, Value)>)
    requires !HasExplicitSize(config) && !HasValidation(config)
    ensures New(config, args).Ok?
    ensures ApplyAll(New(config, args).value, writes).Ok? ==>
      var b := ApplyAll(New(config, args).value, writes).value;
      IsValid(b) <==> forall i | 0 <= i < b.size :: b.value[i] == '1'
  {
    var b0 := New(config, args).value;
    var r := ApplyAll(b0, writes);
    if r.Ok? {
      var b := r.value;
      if forall i | 0 <= i < b.size :: b.value[i] == '1' {
        assert b.value == Repeat('1', |args|);
      }
    }
  }

  /** The default rule has one '1' per argument, not per position: with an
      explicit size larger than the argument count and no validation payload,
      no chain of writes ever makes the object valid. */
  lemma DefaultRuleUnsatisfiableWhenPadded(config: Config, args: seq<Value>, writes: seq<(int, Value)>)
    requires HasExplicitSize(config) && !HasValidation(config)
    requires |args| < Abs(config.size.i)
    ensures New(config, args).Ok?
    ensures ApplyAll(New(config, args).value, writes).Ok? ==>
      !IsValid(ApplyAll(New(config, args).value, writes).value)
  {
  }
}
