/** The names of the counters in a bucket's hash, and the decimal text they are made of. */
module RedisFields {
  import opened Options
  import opened ArmContract
  import opened Window

  const MAX_UINT64: int := 0xFFFF_FFFF_FFFF_FFFF
  const MAX_INT64: int := 0x7FFF_FFFF_FFFF_FFFF

  // ---- Decimal text ----

  predicate IsDigit(c: char) {
    '0' <= c <= '9'
  }

  predicate AllDigits(s: string) {
    forall i :: 0 <= i < |s| ==> IsDigit(s[i])
  }

  function Digit(d: int): (c: char)
    requires 0 <= d < 10
    ensures IsDigit(c) && c as int - '0' as int == d
  {
    (d + '0' as int) as char
  }

  function Decimal(n: nat): (s: string)
    ensures s != "" && AllDigits(s)
  {
    if n < 10 then [Digit(n)] else Decimal(n / 10) + [Digit(n % 10)]
  }

  function Value(s: string): nat
    requires AllDigits(s)
  {
    if s == "" then 0 else Value(s[..|s| - 1]) * 10 + (s[|s| - 1] as int - '0' as int)
  }

  lemma {:induction false} DecimalValue(n: nat)
    ensures Value(Decimal(n)) == n
  {
    if n >= 10 {
      DecimalValue(n / 10);
      var s := Decimal(n);
      assert s[..|s| - 1] == Decimal(n / 10);
    }
  }

  /** Base-ten unsigned parsing: no sign, no empty text, nothing above 64 bits; leading zeros pass. */
  function ParseUint(s: string): Option<nat> {
    if s != "" && AllDigits(s) && Value(s) <= MAX_UINT64 then Some(Value(s)) else None
  }

  function PrintInt(i: int): string {
    if i < 0 then "-" + Decimal(-i) else Decimal(i)
  }

  /** Signed parsing, within 64 bits. */
  function ParseInt(s: string): Option<int> {
    var negative := s != "" && s[0] == '-';
    var digits := if s != "" && (s[0] == '-' || s[0] == '+') then s[1..] else s;
    if digits == "" || !AllDigits(digits) then None
    else
      var v: int := if negative then 0 - Value(digits) else Value(digits);
      if -MAX_INT64 - 1 <= v <= MAX_INT64 then Some(v) else None
  }

  lemma IntRoundTrip(i: int)
    ensures ParseInt(PrintInt(i)) == if -MAX_INT64 - 1 <= i <= MAX_INT64 then Some(i) else None
  {
    DecimalValue(if i < 0 then -i else i);
    if i < 0 {
      assert PrintInt(i)[1..] == Decimal(-i);
    } else {
      assert IsDigit(PrintInt(i)[0]);
    }
  }

  // ---- Splitting at colons ----

  predicate NoColon(s: string) {
    forall i :: 0 <= i < |s| ==> s[i] != ':'
  }

  function Split(s: string): (parts: seq<string>)
    ensures |parts| >= 1
  {
    if s == "" then [""]
    else
      var rest := if s[0] == ':' then [""] + Split(s[1..]) else Split(s[1..]);
      if s[0] == ':' then rest else [[s[0]] + rest[0]] + rest[1..]
  }

  function Join(parts: seq<string>): string
    requires |parts| >= 1
  {
    if |parts| == 1 then parts[0] else parts[0] + ":" + Join(parts[1..])
  }

  lemma {:induction false} SplitWord(a: string)
    requires NoColon(a)
    ensures Split(a) == [a]
  {
    if a != "" {
      SplitWord(a[1..]);
      assert [a[0]] + a[1..] == a;
    }
  }

  lemma {:induction false} SplitFirst(a: string, rest: string)
    requires NoColon(a)
    ensures Split(a + ":" + rest) == [a] + Split(rest)
  {
    if a == "" {
      assert (":" + rest)[1..] == rest;
      assert a + ":" + rest == ":" + rest;
    } else {
      SplitFirst(a[1..], rest);
      assert (a + ":" + rest)[1..] == a[1..] + ":" + rest;
      assert [a[0]] + a[1..] == a;
    }
  }

  lemma {:induction false} JoinSplit(s: string)
    ensures Join(Split(s)) == s
  {
    if s != "" {
      JoinSplit(s[1..]);
      var rest := Split(s[1..]);
      assert [s[0]] + s[1..] == s;
      if s[0] == ':' {
        assert ([""] + rest)[1..] == rest;
      } else {
        assert ([[s[0]] + rest[0]] + rest[1..])[1..] == rest[1..];
      }
    }
  }

  // ---- Counter fields ----

  datatype Counter = Counter(key: ArmKey, hits: bool)

  /** A policy number the field's 64-bit text can carry. */
  predicate Fits(k: ArmKey) {
    k.policy.number <= MAX_UINT64
  }

  function RoleTag(role: Role): string {
    if role == Active then "a" else "s"
  }

  function KindTag(hits: bool): string {
    if hits then "h" else "m"
  }

  function CountField(c: Counter): string {
    Decimal(c.key.policy.number) + ":" + RoleTag(c.key.role) + ":" + KindTag(c.hits)
  }

  function ParseRole(s: string): Option<Role> {
    if s == "a" then Some(Active) else if s == "s" then Some(Shadow) else None
  }

  function ParseKind(s: string): Option<bool> {
    if s == "h" then Some(true) else if s == "m" then Some(false) else None
  }

  function ParseCountField(field: string): Option<Counter> {
    var parts := Split(field);
    if |parts| != 3 then None
    else
      var number, role, kind := ParseUint(parts[0]), ParseRole(parts[1]), ParseKind(parts[2]);
      if number == None || role == None || kind == None then None
      else Some(Counter(ArmKey(PolicyType(number.value), role.value), kind.value))
  }

  /** Every counter that fits reads back as itself, and one that does not fit is refused. */
  lemma FieldRoundTrip(c: Counter)
    ensures ParseCountField(CountField(c)) == if Fits(c.key) then Some(c) else None
  {
    var a, b, d := Decimal(c.key.policy.number), RoleTag(c.key.role), KindTag(c.hits);
    assert a + ":" + b + ":" + d == a + ":" + (b + ":" + d);
    SplitFirst(a, b + ":" + d);
    SplitFirst(b, d);
    SplitWord(d);
    DecimalValue(c.key.policy.number);
    match c.key.role
    case Shadow =>
    case Active =>
  }

  predicate AllZeros(s: string) {
    forall i :: 0 <= i < |s| ==> s[i] == '0'
  }

  /** Digits are their value's decimal text behind some zeros. */
  lemma {:induction false} DigitsCanonical(s: string) returns (zeros: string)
    requires s != "" && AllDigits(s)
    ensures AllZeros(zeros) && s == zeros + Decimal(Value(s))
  {
    var init, d := s[..|s| - 1], s[|s| - 1] as int - '0' as int;
    assert s == init + [Digit(d)];
    if init == "" {
      assert Value(init) == 0;
      zeros := "";
    } else {
      zeros := DigitsCanonical(init);
      var v := Value(init);
      assert Value(s) == v * 10 + d;
      if v == 0 {
        zeros := zeros + "0";
        assert init == zeros;
      } else {
        assert Value(s) / 10 == v && Value(s) % 10 == d;
        assert zeros + Decimal(v) + [Digit(d)] == zeros + (Decimal(v) + [Digit(d)]);
      }
    }
  }

  lemma JoinThree(a: string, b: string, c: string)
    ensures Join([a, b, c]) == a + ":" + (b + ":" + c)
  {
    assert [a, b, c][1..] == [b, c] && [b, c][1..] == [c];
    assert Join([b, c]) == b + ":" + Join([c]);
    assert Join([a, b, c]) == a + ":" + Join([b, c]);
  }

  /** Nothing else reads as a counter: a field that parses is the counter's own field behind leading zeros. */
  lemma ParsedIsPrinted(field: string) returns (zeros: string)
    requires ParseCountField(field).Some?
    ensures AllZeros(zeros) && field == zeros + CountField(ParseCountField(field).value)
    ensures Fits(ParseCountField(field).value.key)
  {
    hide Split, Join, Value, Decimal;
    var parts, c := Split(field), ParseCountField(field).value;
    JoinSplit(field);
    assert parts == [parts[0], parts[1], parts[2]];
    JoinThree(parts[0], parts[1], parts[2]);
    zeros := DigitsCanonical(parts[0]);
    assert parts[1] == RoleTag(c.key.role) && parts[2] == KindTag(c.hits);
    var digits := Decimal(c.key.policy.number);
    assert (zeros + digits) + ":" + (parts[1] + ":" + parts[2]) == zeros + (digits + ":" + parts[1] + ":" + parts[2]);
  }

  /** Two counters never share a field. */
  lemma FieldInjective(c: Counter, d: Counter)
    requires Fits(c.key) && CountField(c) == CountField(d)
    ensures c == d
  {
    FieldRoundTrip(c);
    FieldRoundTrip(d);
  }
}
