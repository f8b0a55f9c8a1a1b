/**
 * Node keys of the registry. A node is registered under the text
 * `host + ":" + port`; the registry later recovers host and port by splitting
 * that text on ':' and parsing the second part. The Java library functions
 * involved (`Integer.toString`, `String.split`, `Integer.parseInt`) are
 * written out so that the round trip can be proved and its limits exhibited.
 */
module NodeKeys {
  import opened Wrappers

  const Int32Min: int := -0x8000_0000
  const Int32Max: int := 0x7FFF_FFFF

  /** Java `int`. */
  type Int32 = x: int | -0x8000_0000 <= x <= 0x7FFF_FFFF

  predicate IsDigit(c: char) {
    '0' <= c <= '9'
  }

  function DigitChar(d: int): (c: char)
    requires 0 <= d < 10
    ensures IsDigit(c)
  {
    (d + '0' as int) as char
  }

  /** Decimal digits of `n` without leading zeros. */
  function NatToString(n: nat): (s: string)
    decreases n
  {
    if n < 10 then [DigitChar(n)] else NatToString(n / 10) + [DigitChar(n % 10)]
  }

  /** Java `Integer.toString(int)` (and string concatenation of an int). */
  function IntToString(i: int): string {
    if i < 0 then "-" + NatToString(-i) else NatToString(i)
  }

  /** The value of a non-empty string of decimal digits. */
  function DigitsValue(s: string): Option<nat>
    decreases |s|
  {
    if s == [] || !IsDigit(s[|s| - 1]) then None
    else
      var d := s[|s| - 1] as int - '0' as int;
      if |s| == 1 then Some(d)
      else
        match DigitsValue(s[..|s| - 1])
        case None => None
        case Some(v) => Some(10 * v + d)
  }

  /** Java `Integer.parseInt(String)`: an optional sign, then digits, within the int range. */
  function ParseInt(s: string): Option<Int32> {
    if s == [] then None
    else
      var digits := if s[0] == '-' || s[0] == '+' then s[1..] else s;
      match DigitsValue(digits)
      case None => None
      case Some(v) =>
        var x: int := if s[0] == '-' then -(v as int) else v;
        if Int32Min <= x <= Int32Max then Some(x) else None
  }

  /** The text between separators, including empty fields. */
  function Fields(s: string, sep: char): (r: seq<string>)
    ensures |r| >= 1
    decreases |s|
  {
    if s == [] then [[]]
    else
      var rest := Fields(s[1..], sep);
      if s[0] == sep then [[]] + rest else [[s[0]] + rest[0]] + rest[1..]
  }

  function DropTrailingEmpty(parts: seq<string>): seq<string>
    decreases |parts|
  {
    if parts != [] && parts[|parts| - 1] == [] then DropTrailingEmpty(parts[..|parts| - 1]) else parts
  }

  /**
   * Java `s.split(":")`: the fields around every separator, with trailing empty
   * fields removed, except that a string with no separator yields itself.
   */
  function Split(s: string, sep: char): seq<string> {
    var f := Fields(s, sep);
    if |f| == 1 then f else DropTrailingEmpty(f)
  }

  /** The registry key of a node (`createKey`). */
  function CreateKey(host: string, port: Int32): string {
    host + ":" + IntToString(port)
  }

  /**
   * How the registry recovers host and port from a key: `parts[0]` and
   * `Integer.parseInt(parts[1])` of `key.split(":")`. A missing part throws
   * ArrayIndexOutOfBoundsException, a malformed port NumberFormatException.
   */
  function ParseKey(key: string): Result<(string, Int32)> {
    var parts := Split(key, ':');
    if |parts| < 2 then Err(IndexOutOfBoundsException)
    else
      match ParseInt(parts[1])
      case None => Err(NumberFormatException)
      case Some(p) => Ok((parts[0], p))
  }

  /** A key that `ParseKey` maps back to itself through `CreateKey`. */
  predicate RoundTrips(key: string) {
    var r := ParseKey(key);
    r.Ok? && CreateKey(r.value.0, r.value.1) == key
  }

  // ---------------------------------------------------------------------
  // Decimal formatting and parsing

  lemma {:induction false} NatToStringDigits(n: nat)
    ensures |NatToString(n)| >= 1
    ensures forall i :: 0 <= i < |NatToString(n)| ==> IsDigit(NatToString(n)[i])
    decreases n
  {
    if n >= 10 {
      NatToStringDigits(n / 10);
    }
  }

  lemma {:induction false} DigitsValueNatToString(n: nat)
    ensures DigitsValue(NatToString(n)) == Some(n)
    decreases n
  {
    var s := NatToString(n);
    NatToStringDigits(n);
    if n >= 10 {
      assert s[..|s| - 1] == NatToString(n / 10);
      DigitsValueNatToString(n / 10);
    }
  }

  /** `Integer.parseInt` inverts `Integer.toString` on every int. */
  lemma ParseIntToString(p: Int32)
    ensures ParseInt(IntToString(p)) == Some(p)
  {
    var s := IntToString(p);
    if p < 0 {
      var m: nat := -(p as int);
      NatToStringDigits(m);
      DigitsValueNatToString(m);
      assert s[1..] == NatToString(m);
    } else {
      NatToStringDigits(p);
      DigitsValueNatToString(p);
    }
  }

  lemma IntToStringShape(p: int)
    ensures IntToString(p) != []
    ensures ':' !in IntToString(p)
  {
    var s := IntToString(p);
    if p < 0 {
      NatToStringDigits(-p);
      assert forall i :: 1 <= i < |s| ==> s[i] == NatToString(-p)[i - 1];
    } else {
      NatToStringDigits(p);
    }
  }

  // ---------------------------------------------------------------------
  // Splitting

  lemma {:induction false} FieldsWithoutSeparator(t: string, sep: char)
    requires sep !in t
    ensures Fields(t, sep) == [t]
    decreases |t|
  {
    if t != [] {
      FieldsWithoutSeparator(t[1..], sep);
      assert [t[0]] + t[1..] == t;
    }
  }

  lemma {:induction false} FieldsAfterFirstField(h: string, sep: char, t: string)
    requires sep !in h
    ensures Fields(h + [sep] + t, sep) == [h] + Fields(t, sep)
    decreases |h|
  {
    var s := h + [sep] + t;
    if h == [] {
      assert s[1..] == t;
    } else {
      assert s[1..] == h[1..] + [sep] + t;
      FieldsAfterFirstField(h[1..], sep, t);
      assert [h[0]] + h[1..] == h;
    }
  }

  /** Splitting a key on ':' yields the host and the port text when the host has no ':'. */
  lemma SplitCreateKey(host: string, port: Int32)
    requires ':' !in host
    ensures Split(CreateKey(host, port), ':') == [host, IntToString(port)]
  {
    var digits := IntToString(port);
    IntToStringShape(port);
    assert CreateKey(host, port) == host + [':'] + digits;
    FieldsAfterFirstField(host, ':', digits);
    FieldsWithoutSeparator(digits, ':');
  }

  /** `createKey` followed by the registry's parsing recovers host and port when the host has no ':'. */
  lemma ParseKeyCreateKey(host: string, port: Int32)
    requires ':' !in host
    ensures ParseKey(CreateKey(host, port)) == Ok((host, port))
    ensures RoundTrips(CreateKey(host, port))
  {
    SplitCreateKey(host, port);
    ParseIntToString(port);
  }

  /** Two colon-free hosts give the same key only for the same node. */
  lemma CreateKeyInjective(h1: string, p1: Int32, h2: string, p2: Int32)
    requires ':' !in h1 && ':' !in h2
    requires CreateKey(h1, p1) == CreateKey(h2, p2)
    ensures h1 == h2 && p1 == p2
  {
    ParseKeyCreateKey(h1, p1);
    ParseKeyCreateKey(h2, p2);
  }

  /** A host that itself contains ':' is re-parsed as a different node: "a:5" on port 80 reads back as "a" on port 5. */
  lemma ParseKeyMisreadsColonHost()
    ensures CreateKey("a:5", 80) == "a:5:80"
    ensures ParseKey("a:5:80") == Ok(("a", 5))
    ensures !RoundTrips("a:5:80")
    ensures CreateKey("a", 5) == "a:5"
  {
    assert NatToString(80) == "80" by {
      assert NatToString(8) == "8";
    }
    assert IntToString(80) == "80";
    assert "a:5:80" == "a" + [':'] + "5:80";
    FieldsAfterFirstField("a", ':', "5:80");
    assert "5:80" == "5" + [':'] + "80";
    FieldsAfterFirstField("5", ':', "80");
    FieldsWithoutSeparator("80", ':');
    assert Fields("a:5:80", ':') == ["a", "5", "80"];
    assert DigitsValue("5") == Some(5);
    assert ParseInt("5") == Some(5);
    assert NatToString(5) == "5";
    assert CreateKey("a", 5) == "a:5";
  }

  lemma Port50051Text()
    ensures IntToString(50051) == "50051"
  {
    assert NatToString(5) == "5";
    assert NatToString(50) == "50";
    assert NatToString(500) == "500";
    assert NatToString(5005) == "5005";
  }

  lemma Ipv6KeyFields()
    ensures Fields("::1:50051", ':') == [[], [], "1", "50051"]
  {
    var t := "1:50051";
    assert "::1:50051" == [] + [':'] + ":1:50051";
    FieldsAfterFirstField([], ':', ":1:50051");
    assert ":1:50051" == [] + [':'] + t;
    FieldsAfterFirstField([], ':', t);
    assert t == "1" + [':'] + "50051";
    FieldsAfterFirstField("1", ':', "50051");
    FieldsWithoutSeparator("50051", ':');
  }

  /** An IPv6 literal host makes the port text empty, so parsing the key throws NumberFormatException. */
  lemma ParseKeyRejectsIpv6Host()
    ensures CreateKey("::1", 50051) == "::1:50051"
    ensures ParseKey("::1:50051") == Err(NumberFormatException)
  {
    Port50051Text();
    Ipv6KeyFields();
  }
}
