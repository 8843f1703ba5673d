/** Numbered file names: a prefix, at least six decimal digits, a suffix. */
module FileNames {
  import opened Bytes

  const ZERO: Byte := 48

  predicate IsDigit(b: Byte) {
    48 <= b <= 57
  }

  predicate AllDigits(ds: Blob) {
    forall i :: 0 <= i < |ds| ==> IsDigit(ds[i])
  }

  function Value(ds: Blob): nat
    requires AllDigits(ds)
  {
    if ds == [] then 0 else Value(ds[..|ds| - 1]) * 10 + (ds[|ds| - 1] - 48)
  }

  function Digits(n: nat): (ds: Blob)
    ensures ds != [] && AllDigits(ds)
    // no leading zero
    ensures n > 0 ==> ds[0] != ZERO
  {
    if n < 10 then [48 + n] else Digits(n / 10) + [48 + n % 10]
  }

  function Zeros(n: nat): (z: Blob)
    ensures |z| == n && AllDigits(z)
  {
    seq(n, _ => 48)
  }

  /** setw(6), setfill('0') */
  function Padded(n: nat): (ds: Blob)
    ensures |ds| >= 6 && AllDigits(ds)
  {
    var ds := Digits(n);
    if |ds| < 6 then Zeros(6 - |ds|) + ds else ds
  }

  function NumberedName(prefix: Blob, n: nat, suffix: Blob): Blob {
    prefix + Padded(n) + suffix
  }

  lemma {:induction false} ValueDigits(n: nat)
    ensures Value(Digits(n)) == n
  {
    if n >= 10 {
      ValueDigits(n / 10);
      var init := Digits(n / 10);
      assert (init + [48 + n % 10])[..|init|] == init;
    }
  }

  lemma {:induction false} ValuePad(z: nat, ds: Blob)
    requires AllDigits(ds)
    ensures Value(Zeros(z) + ds) == Value(ds)
  {
    var all := Zeros(z) + ds;
    if ds != [] {
      ValuePad(z, ds[..|ds| - 1]);
      assert all[..|all| - 1] == Zeros(z) + ds[..|ds| - 1];
    } else if z > 0 {
      ValuePad(z - 1, []);
      assert all[..|all| - 1] == Zeros(z - 1) + [];
    }
  }

  lemma ValuePadded(n: nat)
    ensures Value(Padded(n)) == n
  {
    ValueDigits(n);
    if |Digits(n)| < 6 {
      ValuePad(6 - |Digits(n)|, Digits(n));
    }
  }

  lemma {:induction false} ValueGrows(ds: Blob, i: nat)
    requires AllDigits(ds) && i <= |ds|
    ensures Value(ds[..i]) <= Value(ds)
  {
    if i == |ds| {
      assert ds[..i] == ds;
    } else {
      var init := ds[..|ds| - 1];
      ValueGrows(init, i);
      assert init[..i] == ds[..i];
    }
  }

  /** The digit loop: refuses non-digits and values that do not fit 64 bits. */
  method ParseDigits(ds: Blob) returns (r: Option<nat>)
    ensures r == if AllDigits(ds) && Value(ds) <= MAX_U64 then Some(Value(ds)) else None
  {
    hide Value;
    if !AllDigits(ds) {
      return None;
    }
    var parsed := 0;
    ValueNone(ds);
    for i := 0 to |ds|
      invariant parsed == Value(ds[..i]) <= MAX_U64
    {
      var value := ds[i] - 48;
      ValueNext(ds, i);
      if parsed > (MAX_U64 - value) / 10 {
        ValueGrows(ds, i + 1);
        return None;
      }
      parsed := parsed * 10 + value;
    }
    assert ds[..|ds|] == ds;
    r := Some(parsed);
  }

  lemma ValueNone(ds: Blob)
    requires AllDigits(ds)
    ensures Value(ds[..0]) == 0
  {
  }

  lemma ValueNext(ds: Blob, i: nat)
    requires AllDigits(ds) && i < |ds|
    ensures Value(ds[..i + 1]) == Value(ds[..i]) * 10 + (ds[i] - 48)
  {
    assert ds[..i + 1][..i] == ds[..i];
  }

  /** What a name with this prefix and suffix denotes. */
  function Denotes(prefix: Blob, suffix: Blob, name: Blob): Option<nat> {
    if |name| < |prefix| + 6 + |suffix| || name[..|prefix|] != prefix || name[|name| - |suffix|..] != suffix then None
    else
      var ds := name[|prefix|..|name| - |suffix|];
      if AllDigits(ds) && 0 < Value(ds) <= MAX_U64 then Some(Value(ds)) else None
  }

  method ParseNumberedName(prefix: Blob, suffix: Blob, name: Blob) returns (r: Option<nat>)
    ensures r == Denotes(prefix, suffix, name)
  {
    if |name| < |prefix| + 6 + |suffix| || name[..|prefix|] != prefix || name[|name| - |suffix|..] != suffix {
      return None;
    }
    var parsed := ParseDigits(name[|prefix|..|name| - |suffix|]);
    if parsed.None? || parsed.value == 0 {
      return None;
    }
    r := parsed;
  }

  /** Every file number can be read back from its name. */
  lemma ParseName(prefix: Blob, n: nat, suffix: Blob)
    requires 0 < n <= MAX_U64
    ensures Denotes(prefix, suffix, NumberedName(prefix, n, suffix)) == Some(n)
  {
    hide Value, Padded;
    var name, ds := NumberedName(prefix, n, suffix), Padded(n);
    assert name[..|prefix|] == prefix && name[|name| - |suffix|..] == suffix;
    assert name[|prefix|..|name| - |suffix|] == ds;
    ValuePadded(n);
  }

  lemma {:induction false} DigitsValue(ds: Blob)
    requires AllDigits(ds) && ds != [] && (ds[0] != ZERO || |ds| == 1)
    ensures Digits(Value(ds)) == ds
  {
    var init := ds[..|ds| - 1];
    if |ds| == 1 {
      assert init == [];
    } else {
      DigitsValue(init);
      ValuePositive(init);
      assert ds == init + [ds[|ds| - 1]];
    }
  }

  lemma {:induction false} ValuePositive(ds: Blob)
    requires AllDigits(ds) && ds != [] && ds[0] != ZERO
    ensures Value(ds) >= 1
  {
    if |ds| > 1 {
      ValuePositive(ds[..|ds| - 1]);
    } else {
      assert ds[..0] == [];
    }
  }

  /** Leading zeros behind the padding are accepted too: a name is the one its number is
      given exactly when it has six digits or does not start with a zero. */
  lemma NameCanonical(prefix: Blob, suffix: Blob, name: Blob)
    requires Denotes(prefix, suffix, name).Some?
    ensures var ds := name[|prefix|..|name| - |suffix|];
            NumberedName(prefix, Denotes(prefix, suffix, name).value, suffix) == name <==> |ds| == 6 || ds[0] != ZERO
  {
    var ds, n := name[|prefix|..|name| - |suffix|], Denotes(prefix, suffix, name).value;
    assert name == prefix + ds + suffix;
    PaddedCanonical(ds);
    var other := NumberedName(prefix, n, suffix);
    if other == name {
      assert Padded(n) == other[|prefix|..|other| - |suffix|];
    }
  }

  lemma PaddedCanonical(ds: Blob)
    requires AllDigits(ds) && |ds| >= 6 && Value(ds) > 0
    ensures Padded(Value(ds)) == ds <==> |ds| == 6 || ds[0] != ZERO
  {
    hide Digits, Value;
    var z := LeadingZeros(ds);
    var tail := ds[z..];
    assert ds == Zeros(z) + tail;
    ValuePad(z, tail);
    NoValue(tail);
    DigitsValue(tail);
  }

  lemma NoValue(ds: Blob)
    requires AllDigits(ds) && Value(ds) > 0
    ensures ds != []
  {
  }

  function LeadingZeros(ds: Blob): (z: nat)
    ensures z <= |ds| && ds[..z] == Zeros(z) && (z < |ds| ==> ds[z] != ZERO)
  {
    if ds == [] || ds[0] != ZERO then 0
    else
      var z := 1 + LeadingZeros(ds[1..]);
      assert ds[..z] == [ds[0]] + ds[1..][..z - 1];
      z
  }
}
