/** Scenarios from the repository's tests, stated over the model, and the
    four-flag truth table that an array rule encodes. */
module Examples {
  import opened Results
  import opened PhpValue
  import opened BitString
  import Validation
  import opened Binliner

  /** The bit string of four flags, first flag most significant, is the
      integer 8a + 4b + 2c + d. */
  lemma {:induction false} FourFlagsValue(a: bool, b: bool, c: bool, d: bool, s: string)
    requires |s| == 4 && IsBits(s)
    requires s[0] == '1' <==> a
    requires s[1] == '1' <==> b
    requires s[2] == '1' <==> c
    requires s[3] == '1' <==> d
    ensures BinVal(s) ==
      (if a then 8 else 0) + (if b then 4 else 0) + (if c then 2 else 0) + (if d then 1 else 0)
  {
    var s3 := s[..3];
    var s2 := s[..2];
    var s1 := s[..1];
    assert s3[..2] == s2 && s2[..1] == s1 && s1[..0] == [];
    assert BinVal(s1) == (if a then 1 else 0);
    assert BinVal(s2) == 2 * BinVal(s1) + (if b then 1 else 0);
    assert BinVal(s3) == 2 * BinVal(s2) + (if c then 1 else 0);
  }

  /** An object holding four flags under the rule [8, 9, 14, 15] is valid
      exactly when the first flag is set and the third equals the second. */
  lemma FourFlagsAccepted(st: State, a: bool, b: bool, c: bool, d: bool)
    requires st.Valid() && st.size == 4
    requires st.rule == Validation.AnyOf([Int(8), Int(9), Int(14), Int(15)])
    requires st.value[0] == '1' <==> a
    requires st.value[1] == '1' <==> b
    requires st.value[2] == '1' <==> c
    requires st.value[3] == '1' <==> d
    ensures IsValid(st) <==> a && (b == c)
    ensures IsValid(st) ==> (IntVal(st) > 10 <==> b && c)
    ensures Get(st, 3) == Ok(Int(0)) <==> !d
  {
    FourFlagsValue(a, b, c, d, st.value);
    var n := IntVal(st);
    assert IsValid(st) <==> n == 8 || n == 9 || n == 14 || n == 15 by {
      if n == 8 || n == 9 || n == 14 || n == 15 {
        var k := if n == 8 then 0 else if n == 9 then 1 else if n == 14 then 2 else 3;
        assert st.rule.options[k] == Int(n);
      }
    }
  }

  /** The flow of four conditions built with the rule [8, 9, 14, 15]: the
      first flag is required and the third must equal the second. Among valid
      objects, an integer above 10 means the second and third flags are set,
      and bit 3 reads 0 exactly when the fourth flag is clear. */
  lemma FourFlagFlow(a: bool, b: bool, c: bool, d: bool)
    ensures
      var r := New(Options(Null, Arr([Int(8), Int(9), Int(14), Int(15)])),
                   [Bool(a), Bool(b), Bool(c), Bool(d)]);
      && r.Ok?
      && (IsValid(r.value) <==> a && (b == c))
      && (IsValid(r.value) ==> (IntVal(r.value) > 10 <==> b && c))
      && (Get(r.value, 3) == Ok(Int(0)) <==> !d)
  {
    var args := [Bool(a), Bool(b), Bool(c), Bool(d)];
    var r := New(Options(Null, Arr([Int(8), Int(9), Int(14), Int(15)])), args);
    assert r.Ok?;
    var st := r.value;
    assert st.size == 4;
    assert forall i | 0 <= i < 4 :: st.value[i] == '1' <==> Truthy(args[i]);
    FourFlagsAccepted(st, a, b, c, d);
  }

  /** The value of a two-bit string. */
  lemma {:induction false} TwoBitsValue(s: string)
    requires |s| == 2 && IsBits(s)
    ensures BinVal(s) == (if s[0] == '1' then 2 else 0) + (if s[1] == '1' then 1 else 0)
  {
    assert s[..1][..0] == [];
  }

  /** The value of a three-bit string. */
  lemma {:induction false} ThreeBitsValue(s: string)
    requires |s| == 3 && IsBits(s)
    ensures BinVal(s) ==
      (if s[0] == '1' then 4 else 0) + (if s[1] == '1' then 2 else 0) + (if s[2] == '1' then 1 else 0)
  {
    TwoBitsValue(s[..2]);
  }

  /** A size-2 object with the rule [1, 2] and no arguments starts as "00". */
  lemma BasicValidationStart()
    ensures New(Options(Int(2), Arr([Int(1), Int(2)])), [])
      == Ok(State(2, "00", Validation.AnyOf([Int(1), Int(2)])))
  {
    var r := New(Options(Int(2), Arr([Int(1), Int(2)])), []);
    assert r.Ok? && r.value.value == "00";
  }

  /** From "00", writing 1 at 0 gives "10", then 1 at 1 gives "11", then the
      string "0" at 0 gives "01". */
  lemma BasicValidationWrites(rule: Validation.Rule)
    ensures Set(State(2, "00", rule), 0, Int(1)) == Ok(State(2, "10", rule))
    ensures Set(State(2, "10", rule), 1, Int(1)) == Ok(State(2, "11", rule))
    ensures Set(State(2, "11", rule), 0, Str("0")) == Ok(State(2, "01", rule))
  {
    assert "00"[0 := '1'] == "10" && "10"[1 := '1'] == "11" && "11"[0 := '0'] == "01";
  }

  /** Bit 1 of "11" reads as the integer 1 and as the string "1". */
  lemma BasicValidationReads(rule: Validation.Rule)
    ensures Get(State(2, "11", rule), 1) == Ok(Int(1))
    ensures Get(State(2, "11", rule), 1, "string") == Ok(Str("1"))
  {
  }

  /** Under the rule [1, 2], "00" (0) and "11" (3) are invalid while "10" (2)
      and "01" (1) are valid. */
  lemma BasicValidationVerdicts()
    ensures
      var rule := Validation.AnyOf([Int(1), Int(2)]);
      && !IsValid(State(2, "00", rule))
      && IsValid(State(2, "10", rule))
      && !IsValid(State(2, "11", rule))
      && IsValid(State(2, "01", rule))
  {
    var rule := Validation.AnyOf([Int(1), Int(2)]);
    TwoBitsValue("00");
    TwoBitsValue("10");
    TwoBitsValue("11");
    TwoBitsValue("01");
    assert rule.options[0] == Int(1) && rule.options[1] == Int(2);
  }

  /** A size-3 object with the integer rule 5 and no arguments starts as "000". */
  lemma ChainedStart()
    ensures New(Options(Int(3), Int(5)), []) == Ok(State(3, "000", Validation.ExactInt(5)))
  {
    var r := New(Options(Int(3), Int(5)), []);
    assert r.Ok? && r.value.value == "000";
  }

  /** From "000", the chain of writes 1, 0, 1 gives "101". */
  lemma ChainedWritesFirst(rule: Validation.Rule)
    ensures ApplyAll(State(3, "000", rule), [(0, Int(1)), (1, Int(0)), (2, Int(1))])
      == Ok(State(3, "101", rule))
  {
    var w := [(0, Int(1)), (1, Int(0)), (2, Int(1))];
    assert w[1..] == [(1, Int(0)), (2, Int(1))] && w[1..][1..] == [(2, Int(1))];
    assert Set(State(3, "000", rule), 0, Int(1)) == Ok(State(3, "100", rule)) by {
      assert "000"[0 := '1'] == "100";
    }
    assert Set(State(3, "100", rule), 1, Int(0)) == Ok(State(3, "100", rule)) by {
      assert "100"[1 := '0'] == "100";
    }
    assert Set(State(3, "100", rule), 2, Int(1)) == Ok(State(3, "101", rule)) by {
      assert "100"[2 := '1'] == "101";
    }
  }

  /** From "101", the chain of writes 1, 1, 1 gives "111". */
  lemma ChainedWritesSecond(rule: Validation.Rule)
    ensures ApplyAll(State(3, "101", rule), [(0, Int(1)), (1, Int(1)), (2, Int(1))])
      == Ok(State(3, "111", rule))
  {
    var v := [(0, Int(1)), (1, Int(1)), (2, Int(1))];
    assert v[1..] == [(1, Int(1)), (2, Int(1))] && v[1..][1..] == [(2, Int(1))];
    assert Set(State(3, "101", rule), 0, Int(1)) == Ok(State(3, "101", rule)) by {
      assert "101"[0 := '1'] == "101";
    }
    assert Set(State(3, "101", rule), 1, Int(1)) == Ok(State(3, "111", rule)) by {
      assert "101"[1 := '1'] == "111";
    }
    assert Set(State(3, "111", rule), 2, Int(1)) == Ok(State(3, "111", rule)) by {
      assert "111"[2 := '1'] == "111";
    }
  }

  /** Under the integer rule 5, "101" is valid and "000" and "111" are not. */
  lemma ChainedVerdicts()
    ensures !IsValid(State(3, "000", Validation.ExactInt(5)))
    ensures IsValid(State(3, "101", Validation.ExactInt(5)))
    ensures IntVal(State(3, "101", Validation.ExactInt(5))) == 5
    ensures !IsValid(State(3, "111", Validation.ExactInt(5)))
  {
    ThreeBitsValue("000");
    ThreeBitsValue("101");
    ThreeBitsValue("111");
  }

  /** Without a configuration, falsy arguments (0, "", [], false, null) give
      all zeros and truthy ones (1, " ", [""], true) all ones, valid under the
      default rule. */
  lemma WithoutConfig()
    ensures
      var z := New(NoConfig, [Int(0), Str(""), Arr([]), Bool(false), Null]);
      && z.Ok? && ToString(z.value) == "00000" && !IsValid(z.value)
    ensures
      var o := New(NoConfig, [Int(1), Str(" "), Arr([Str("")]), Bool(true)]);
      && o.Ok? && ToString(o.value) == "1111" && IsValid(o.value)
  {
  }

  /** The string rule compares strings exactly: "011" does not match "11". */
  lemma StringRuleIsExact()
    ensures !Validation.IsValid(Validation.ExactStr("11"), "011")
    ensures Validation.IsValid(Validation.ExactStr("11"), "11")
  {
  }

  /** The integer rule ignores leading zeros: 3 accepts both "11" and "011",
      and 1 accepts "01". */
  lemma IntegerRuleIgnoresLeadingZeros()
    ensures Validation.IsValid(Validation.ExactInt(3), "11")
    ensures Validation.IsValid(Validation.ExactInt(3), "011")
    ensures Validation.IsValid(Validation.ExactInt(1), "01")
  {
    TwoBitsValue("11");
    ThreeBitsValue("011");
    TwoBitsValue("01");
  }

  /** Mixed array rule [2, "11"]: "10" matches the integer, "11" the string,
      and "01" neither. */
  lemma MixedArrayRule()
    ensures Validation.IsValid(Validation.AnyOf([Int(2), Str("11")]), "10")
    ensures Validation.IsValid(Validation.AnyOf([Int(2), Str("11")]), "11")
    ensures !Validation.IsValid(Validation.AnyOf([Int(2), Str("11")]), "01")
  {
    TwoBitsValue("10");
    TwoBitsValue("01");
  }

  /** Size -1 with two arguments throws naming size 1; writing position 5 of a
      size-5 object throws naming 5; an object payload throws naming its type. */
  lemma Exceptions()
    ensures New(Options(Int(-1), Str("11010")), [Bool(true), Bool(true)]) == Err(TooManyArguments(1))
    ensures
      var b := New(Options(Int(5), Str("11010")), [Bool(true), Bool(true), Int(-1)]);
      b.Ok? && ToString(b.value) == "11100" && Set(b.value, 5, Bool(true)) == Err(IllegalPosition(5))
    ensures New(Options(Int(5), Obj), []) == Err(InvalidValidationType("object"))
  {
  }
}
