/** The recogniser of stream cursors in the seat availability endpoint. */
module SeatCursor {
  import opened Decimal

  const UINT64_MAX := 0xFFFF_FFFF_FFFF_FFFF

  function Print(major: nat, minor: nat): string {
    Digits(major) + "-" + Digits(minor)
  }

  /** from_chars in base 10 for an unsigned 64-bit number: it reads the longest run of digits;
      `ok` is false if there is none or if its value is out of range. */
  method FromChars(part: string) returns (ok: bool, number: nat, length: nat)
    ensures length <= |part| && AllDigits(part[..length]) && (length < |part| ==> !IsDigit(part[length]))
    ensures ok <==> length > 0 && Value(part[..length]) <= 18446744073709551615
    ensures ok ==> number == Value(part[..length])
  {
    number, length := 0, 0;
    var overflow := false;
    while length < |part| && IsDigit(part[length])
      invariant length <= |part| && AllDigits(part[..length])
      invariant overflow <==> Value(part[..length]) > UINT64_MAX
      invariant !overflow ==> number == Value(part[..length])
    {
      var digit := DigitValue(part[length]);
      assert part[..length + 1][..length] == part[..length];
      if overflow || number > (UINT64_MAX - digit) / 10 {
        overflow := true;
      } else {
        number := number * 10 + digit;
      }
      length := length + 1;
    }
    ok := length > 0 && !overflow;
  }

  predicate ValidPart(part: string) {
    Canonical(part) && Value(part) <= UINT64_MAX
  }

  method CheckPart(part: string) returns (ok: bool)
    requires part != ""
    ensures ok <==> ValidPart(part)
  {
    if |part| > 1 && part[0] == '0' {
      return false;
    }
    var parsed, number, length := FromChars(part);
    if !parsed || length != |part| {
      if length == |part| {
        assert part[..length] == part;
      } else {
        assert !IsDigit(part[length]);
      }
      return false;
    }
    assert part[..length] == part;
    return true;
  }

  /** The position of the first dash, or the length if there is none. */
  method FindDash(value: string) returns (split: nat)
    ensures split <= |value| && (split < |value| ==> value[split] == '-')
    ensures forall k :: 0 <= k < split ==> value[k] != '-'
  {
    split := 0;
    while split < |value| && value[split] != '-'
      invariant split <= |value| && forall k :: 0 <= k < split ==> value[k] != '-'
    {
      split := split + 1;
    }
  }

  /** Accepts exactly the printed pairs of 64-bit unsigned numbers. */
  method ValidCursor(value: string) returns (r: bool)
    ensures r <==> exists major: nat, minor: nat ::
              && value == Print(major, minor) == Digits(major) + "-" + Digits(minor)
              && major <= 18446744073709551615 && minor <= 18446744073709551615
  {
    var split := FindDash(value);
    if split == |value| || split == 0 || split + 1 == |value| {
      PrintedPartsAreValid(value, split);
      return false;
    }
    var parts := [value[..split], value[split + 1..]];
    assert value == parts[0] + "-" + parts[1];
    var i := 0;
    while i < |parts|
      invariant i <= |parts|
      invariant forall k :: 0 <= k < i ==> ValidPart(parts[k])
    {
      var ok := CheckPart(parts[i]);
      if !ok {
        PrintedPartsAreValid(value, split);
        return false;
      }
      i := i + 1;
    }
    DigitsOfValue(parts[0]);
    DigitsOfValue(parts[1]);
    assert value == Print(Value(parts[0]), Value(parts[1]));
    return true;
  }

  lemma {:induction false} PrintedHasParts(value: string, split: nat, major: nat, minor: nat)
    requires split <= |value| && (split < |value| ==> value[split] == '-')
    requires forall k :: 0 <= k < split ==> value[k] != '-'
    requires value == Print(major, minor)
    ensures 0 < split < |value| - 1
    ensures value[..split] == Digits(major) && value[split + 1..] == Digits(minor)
  {
    assert value[|Digits(major)|] == '-';
    assert forall k :: 0 <= k < |Digits(major)| ==> value[k] == Digits(major)[k];
    assert split == |Digits(major)|;
  }

  lemma {:induction false} PrintedPartsAreValid(value: string, split: nat)
    requires split <= |value| && (split < |value| ==> value[split] == '-')
    requires forall k :: 0 <= k < split ==> value[k] != '-'
    ensures forall major: nat, minor: nat ::
              value == Print(major, minor) && major <= UINT64_MAX && minor <= UINT64_MAX ==>
              0 < split < |value| - 1 && ValidPart(value[..split]) && ValidPart(value[split + 1..])
  {
    forall major: nat, minor: nat | value == Print(major, minor) && major <= UINT64_MAX && minor <= UINT64_MAX
      ensures 0 < split < |value| - 1 && ValidPart(value[..split]) && ValidPart(value[split + 1..])
    {
      PrintedHasParts(value, split, major, minor);
      ValueOfDigits(major);
      ValueOfDigits(minor);
    }
  }

  /** Different pairs never print alike, so accepted cursors and pairs correspond one to one. */
  lemma {:induction false} PrintIsInjective(a: nat, b: nat, c: nat, d: nat)
    requires Print(a, b) == Print(c, d)
    ensures a == c && b == d
  {
    SplitsAtSeparator(Digits(a), Digits(b), Digits(c), Digits(d), '-');
    ValueOfDigits(a);
    ValueOfDigits(b);
    ValueOfDigits(c);
    ValueOfDigits(d);
  }
}
