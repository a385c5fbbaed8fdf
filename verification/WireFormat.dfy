/** The text protocol between the frontend and a storage node: the WRITE header as it is printed and scanned, and the
    reassembly of the payload from whatever pieces the network delivers. Bytes are characters. */
module WireFormat {
  import opened Entries

  const ID_CHARS: nat := 63

  // ---------------------------------------------------------------- printing

  predicate IsDigit(c: char) {
    '0' <= c <= '9'
  }

  function Digit(d: nat): (c: char)
    requires d < 10
    ensures IsDigit(c) && DigitValue(c) == d
  {
    (d + '0' as nat) as char
  }

  function DigitValue(c: char): (d: nat)
    requires IsDigit(c)
  {
    c as nat - '0' as nat
  }

  predicate AllDigits(s: string) {
    forall i :: 0 <= i < |s| ==> IsDigit(s[i])
  }

  /** Decimal, without leading zeros. */
  function Decimal(n: nat): (s: string)
    ensures |s| > 0 && AllDigits(s)
  {
    if n < 10 then [Digit(n)] else Decimal(n / 10) + [Digit(n % 10)]
  }

  function Header(id: string, offset: nat, length: nat): string {
    "WRITE|" + id + "|" + Decimal(offset) + "|" + Decimal(length) + "\n"
  }

  // ---------------------------------------------------------------- scanning

  function NumberOf(s: string): nat
    requires AllDigits(s)
    decreases |s|
  {
    if s == "" then 0 else 10 * NumberOf(s[..|s| - 1]) + DigitValue(s[|s| - 1])
  }

  predicate IsSpace(c: char) {
    c == ' ' || '\t' <= c <= '\r'
  }

  /** How many characters at the front satisfy the conversion: white space, digits, or anything but a bar. */
  function Spaces(s: string): (k: nat)
    ensures k <= |s| && (k < |s| ==> !IsSpace(s[k]))
    ensures forall i :: 0 <= i < k ==> IsSpace(s[i])
  {
    if s == "" || !IsSpace(s[0]) then 0 else 1 + Spaces(s[1..])
  }

  function DigitsOf(s: string): (k: nat)
    ensures k <= |s| && (k < |s| ==> !IsDigit(s[k]))
    ensures AllDigits(s[..k])
  {
    if s == "" || !IsDigit(s[0]) then 0 else 1 + DigitsOf(s[1..])
  }

  function IdChars(s: string, max: nat): (k: nat)
    ensures k <= |s| && k <= max && (k < |s| && k < max ==> s[k] == '|')
    ensures '|' !in s[..k]
  {
    if s == "" || max == 0 || s[0] == '|' then 0 else 1 + IdChars(s[1..], max - 1)
  }

  /** `%lu`: white space, a sign, digits; too large a number saturates and a minus sign wraps around. */
  function ScanUnsigned(s: string): Option<(nat, string)> {
    var t := s[Spaces(s)..];
    var signed := t != "" && (t[0] == '-' || t[0] == '+');
    var u := if signed then t[1..] else t;
    var k := DigitsOf(u);
    if k == 0 then None
    else
      var v := NumberOf(u[..k]);
      Some((if v >= U64 then U64 - 1 else if signed && t[0] == '-' then (U64 - v) % U64 else v, u[k..]))
  }

  function ScanBar(s: string): Option<string> {
    if s != "" && s[0] == '|' then Some(s[1..]) else None
  }

  datatype Request = Request(id: string, offset: nat, length: nat)

  /** The header line as the receiver scans it; None unless all three fields convert. */
  function Scan(s: string): Option<Request> {
    if !("WRITE|" <= s) then None
    else
      var rest := s[6..];
      var k := IdChars(rest, ID_CHARS);
      var a := ScanBar(rest[k..]);
      if k == 0 || a.None? then None
      else
        var offset := ScanUnsigned(a.value);
        if offset.None? then None
        else
          var b := ScanBar(offset.value.1);
          if b.None? then None
          else
            var length := ScanUnsigned(b.value);
            if length.None? then None else Some(Request(rest[..k], offset.value.0, length.value.0))
  }

  // ---------------------------------------------------------------- parsing undoes printing

  lemma {:induction false} DecimalValue(n: nat)
    ensures NumberOf(Decimal(n)) == n
  {
    if n >= 10 {
      DecimalValue(n / 10);
      var s := Decimal(n);
      assert s[..|s| - 1] == Decimal(n / 10);
    } else {
      assert [Digit(n)][..0] == "";
    }
  }

  lemma {:induction false} DigitsEnd(ds: string, rest: string)
    requires AllDigits(ds) && (rest == "" || !IsDigit(rest[0]))
    ensures DigitsOf(ds + rest) == |ds|
    decreases |ds|
  {
    if ds == "" {
      assert ds + rest == rest;
    } else {
      assert (ds + rest)[1..] == ds[1..] + rest;
      DigitsEnd(ds[1..], rest);
    }
  }

  lemma {:induction false} ScanDecimal(n: nat, rest: string)
    requires n < U64 && (rest == "" || !IsDigit(rest[0]))
    ensures ScanUnsigned(Decimal(n) + rest) == Some((n, rest))
  {
    var ds := Decimal(n);
    var s := ds + rest;
    assert s[0] == ds[0];
    assert Spaces(s) == 0 && s[0..] == s;
    DigitsEnd(ds, rest);
    assert s[..|ds|] == ds && s[|ds|..] == rest;
    DecimalValue(n);
  }

  lemma {:induction false} IdEnd(id: string, rest: string, max: nat)
    requires '|' !in id && rest != "" && rest[0] == '|' && |id| <= max
    ensures IdChars(id + rest, max) == |id|
    decreases |id|
  {
    if id == "" {
      assert id + rest == rest;
    } else {
      assert (id + rest)[1..] == id[1..] + rest;
      IdEnd(id[1..], rest, max - 1);
    }
  }

  lemma {:induction false} ScanFields(offset: nat, length: nat, rest: string)
    requires offset < U64 && length < U64
    ensures var s := Decimal(offset) + ("|" + (Decimal(length) + ("\n" + rest)));
            && ScanUnsigned(s) == Some((offset, "|" + (Decimal(length) + ("\n" + rest))))
            && ScanBar("|" + (Decimal(length) + ("\n" + rest))) == Some(Decimal(length) + ("\n" + rest))
            && ScanUnsigned(Decimal(length) + ("\n" + rest)) == Some((length, "\n" + rest))
  {
    ScanDecimal(offset, "|" + (Decimal(length) + ("\n" + rest)));
    ScanDecimal(length, "\n" + rest);
  }

  lemma {:induction false} HeaderParts(id: string, offset: nat, length: nat, rest: string)
    ensures Header(id, offset, length) + rest ==
              "WRITE|" + (id + ("|" + (Decimal(offset) + ("|" + (Decimal(length) + ("\n" + rest))))))
  {
  }

  /** Scanning a printed header gives its fields back exactly when the id has 1 to 63 characters and no bar; whatever
      bytes follow the header do not matter. */
  lemma {:induction false} ScanUndoesPrintIff(id: string, offset: nat, length: nat, rest: string)
    requires offset < U64 && length < U64
    ensures Scan(Header(id, offset, length) + rest) == Some(Request(id, offset, length)) <==>
              1 <= |id| <= ID_CHARS && '|' !in id
  {
    var fields := Decimal(offset) + ("|" + (Decimal(length) + ("\n" + rest)));
    var s := Header(id, offset, length) + rest;
    HeaderParts(id, offset, length, rest);
    assert s[6..] == id + ("|" + fields);
    if 1 <= |id| <= ID_CHARS && '|' !in id {
      IdEnd(id, "|" + fields, ID_CHARS);
      ScanFields(offset, length, rest);
      assert (id + ("|" + fields))[|id|..] == "|" + fields;
      assert (id + ("|" + fields))[..|id|] == id;
    } else {
      ScannedId(s);
    }
  }

  lemma {:induction false} ScannedId(s: string)
    ensures Scan(s).Some? ==> 1 <= |Scan(s).value.id| <= ID_CHARS && '|' !in Scan(s).value.id
  {
  }
}
