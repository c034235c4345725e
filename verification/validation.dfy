/** The validation rule: one of four kinds of payload, chosen once at
    construction, and the test of a bit string against it. */
module Validation {
  import opened Results
  import opened PhpValue
  import opened BitString

  /** A classified validation payload. `AnyOf` keeps the array's elements as
      given, in order; elements that are neither strings nor integers are
      kept too and simply never match. */
  datatype Rule =
    | Predicate(test: string -> bool)
    | ExactStr(pattern: string)
    | ExactInt(number: int)
    | AnyOf(options: seq<Value>)

  /** The payload a rule was built from. */
  function Payload(rule: Rule): Value {
    match rule
    case Predicate(f) => Closure(f)
    case ExactStr(p) => Str(p)
    case ExactInt(n) => Int(n)
    case AnyOf(es) => Arr(es)
  }

  /** The constructor: accepts a callable, a string, an integer or an array and
      throws for anything else, naming the rejected value's type. */
  function New(payload: Value): (r: Result<Rule, BinlinerException>)
    ensures r.Ok? <==> payload.Closure? || payload.Str? || payload.Int? || payload.Arr?
    ensures r.Ok? ==> Payload(r.value) == payload
    ensures r.Err? ==> r.error == InvalidValidationType(TypeName(payload))
  {
    match payload
    case Closure(f) => Ok(Predicate(f))
    case Str(s) => Ok(ExactStr(s))
    case Int(n) => Ok(ExactInt(n))
    case Arr(es) => Ok(AnyOf(es))
    case _ => Err(InvalidValidationType(TypeName(payload)))
  }

  /** `juggle($input, $type)`: base-2 parse for "integer", the string itself
      for "string" and for every other type name. */
  function Juggle(input: string, typ: string): (r: Value)
    requires IsBits(input)
    ensures r.Int? || r.Str?
    ensures r.Int? <==> typ == "integer"
    ensures r.Str? ==> r.s == input
    ensures r.Int? ==> 0 <= r.i < Pow2(|input|) && ToBits(r.i, |input|) == input
  {
    ToBitsOfBinVal(input);
    if typ == "integer" then Int(BinVal(input)) else Str(input)
  }

  /** PHP's `===` with a juggled value on the right: the same type and the
      same value. */
  predicate Identical(a: Value, b: Value)
    requires b.Int? || b.Str?
  {
    match a
    case Int(i) => b.Int? && b.i == i
    case Str(s) => b.Str? && b.s == s
    case _ => false
  }

  /** One array element against the input, juggled to the element's own type. */
  predicate ElementMatches(e: Value, x: string)
    requires IsBits(x)
    ensures ElementMatches(e, x) <==>
      (e.Str? && e.s == x) || (e.Int? && e.i == BinVal(x))
  {
    Identical(e, Juggle(x, TypeName(e)))
  }

  /** The `foreach` over an array payload, returning at the first match. */
  function AnyMatch(options: seq<Value>, x: string): (r: bool)
    requires IsBits(x)
    ensures r <==> exists k | 0 <= k < |options| :: ElementMatches(options[k], x)
  {
    if |options| == 0 then false
    else if ElementMatches(options[0], x) then true
    else
      var rest := AnyMatch(options[1..], x);
      assert forall k | 1 <= k < |options| :: options[k] == options[1..][k - 1];
      rest
  }

  /** `isValid($input)`. */
  function IsValid(rule: Rule, x: string): (r: bool)
    requires IsBits(x)
    ensures rule.Predicate? ==> r == rule.test(x)
    ensures rule.ExactStr? ==> (r <==> x == rule.pattern)
    ensures rule.ExactInt? ==> (r <==> rule.number == BinVal(x))
    ensures rule.AnyOf? ==> (r <==> exists k | 0 <= k < |rule.options| ::
      || (rule.options[k].Str? && rule.options[k].s == x)
      || (rule.options[k].Int? && rule.options[k].i == BinVal(x)))
  {
    match rule
    case Predicate(f) => f(x)
    case ExactStr(p) => Identical(Str(p), Juggle(x, "string"))
    case ExactInt(n) => Identical(Int(n), Juggle(x, "integer"))
    case AnyOf(es) => AnyMatch(es, x)
  }

  /** Whether an array rule accepts depends only on which elements it holds:
      neither their order nor repetitions matter. */
  lemma AnyOfIgnoresOrderAndDuplicates(xs: seq<Value>, ys: seq<Value>, x: string)
    requires IsBits(x)
    requires forall e :: e in xs <==> e in ys
    ensures IsValid(AnyOf(xs), x) == IsValid(AnyOf(ys), x)
  {
    if IsValid(AnyOf(xs), x) {
      var k :| 0 <= k < |xs| && ElementMatches(xs[k], x);
      assert xs[k] in ys;
    }
    if IsValid(AnyOf(ys), x) {
      var k :| 0 <= k < |ys| && ElementMatches(ys[k], x);
      assert ys[k] in xs;
    }
  }

  /** An array rule with no string or integer element rejects every input;
      in particular the empty array does. */
  lemma AnyOfWithoutScalarsRejects(es: seq<Value>, x: string)
    requires IsBits(x)
    requires forall k | 0 <= k < |es| :: !es[k].Str? && !es[k].Int?
    ensures !IsValid(AnyOf(es), x)
  {
  }

  /** An integer rule on inputs of width `w` is the string rule of its
      `w`-bit encoding when the integer fits in `w` bits: leading zeros are
      irrelevant to it. */
  lemma ExactIntIsPaddedPattern(n: nat, x: string)
    requires IsBits(x) && n < Pow2(|x|)
    ensures IsValid(ExactInt(n), x) <==> IsValid(ExactStr(ToBits(n, |x|)), x)
  {
    BinValOfToBits(n, |x|);
    ToBitsOfBinVal(x);
  }

  /** An integer rule rejects every input too wide for it to fit. */
  lemma ExactIntOutOfRangeRejects(n: int, x: string)
    requires IsBits(x) && (n < 0 || n >= Pow2(|x|))
    ensures !IsValid(ExactInt(n), x)
  {
  }
}
