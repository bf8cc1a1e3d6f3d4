/** Decimal text, IPv4 text and the keys made from them. */
module Text {
  import opened Bytes

  predicate IsDigit(c: char) { '0' <= c <= '9' }

  predicate AllDigits(s: string) {
    forall i :: 0 <= i < |s| ==> IsDigit(s[i])
  }

  /** std::to_string of an unsigned number. */
  function Dec(n: nat): (s: string)
    ensures s != [] && AllDigits(s)
  {
    if n < 10 then ['0' + n as char] else Dec(n / 10) + ['0' + (n % 10) as char]
  }

  /** std::to_string of a signed number. */
  function DecInt(n: int): string {
    if n < 0 then "-" + Dec(-n) else Dec(n)
  }

  function DigitsValue(s: string): nat
    requires AllDigits(s)
  {
    if s == [] then 0
    else 10 * DigitsValue(s[..|s| - 1]) + (s[|s| - 1] - '0') as nat
  }

  lemma {:induction false} DigitsValueOfDec(n: nat)
    ensures DigitsValue(Dec(n)) == n
  {
    if n >= 10 {
      DigitsValueOfDec(n / 10);
      assert Dec(n)[..|Dec(n)| - 1] == Dec(n / 10);
    }
  }

  /** std::string::find of one character. */
  function IndexOf(s: string, c: char): (r: Option<nat>)
    ensures r.None? ==> c !in s
    ensures r.Some? ==> r.value < |s| && s[r.value] == c && c !in s[..r.value]
  {
    if s == [] then None
    else if s[0] == c then Some(0)
    else match IndexOf(s[1..], c)
      case None => None
      case Some(p) =>
        assert s[..p + 1] == [s[0]] + s[1..][..p];
        Some(p + 1)
  }

  lemma {:induction false} IndexOfFirst(head: string, c: char, tail: string)
    requires c !in head
    ensures IndexOf(head + [c] + tail, c) == Some(|head|)
  {
    if head != [] {
      assert (head + [c] + tail)[1..] == head[1..] + [c] + tail;
      IndexOfFirst(head[1..], c, tail);
    }
  }

  // ----- std::stoll -----

  predicate IsSpace(c: char) { c == ' ' || '\t' <= c <= '\r' }

  function SkipSpace(s: string): string {
    if s != [] && IsSpace(s[0]) then SkipSpace(s[1..]) else s
  }

  function DigitPrefix(s: string): (d: string)
    ensures AllDigits(d)
  {
    if s != [] && IsDigit(s[0]) then [s[0]] + DigitPrefix(s[1..]) else []
  }

  predicate IsInt64(v: int) { -0x8000_0000_0000_0000 <= v < 0x8000_0000_0000_0000 }

  /** The sign handling and range check of std::stoll, after the white space. */
  function SignedValue(t: string): Option<int> {
    var signed := t != [] && (t[0] == '-' || t[0] == '+');
    var digits := DigitPrefix(if signed then t[1..] else t);
    if digits == [] then None
    else
      var v := if signed && t[0] == '-' then -(DigitsValue(digits) as int) else DigitsValue(digits);
      if IsInt64(v) then Some(v) else None
  }

  /** std::stoll: leading white space, an optional sign, the longest run of digits, the rest is ignored.
      None stands for its two exceptions (no digits, value out of range). */
  function Stoll(s: string): Option<int> {
    SignedValue(SkipSpace(s))
  }

  lemma {:induction false} DigitPrefixOfDigits(s: string)
    requires AllDigits(s)
    ensures DigitPrefix(s) == s
  {
    if s != [] {
      DigitPrefixOfDigits(s[1..]);
    }
  }

  lemma SignedValueOfDigits(d: string)
    requires d != [] && AllDigits(d) && IsInt64(DigitsValue(d))
    ensures SignedValue(d) == Some(DigitsValue(d))
  {
    DigitPrefixOfDigits(d);
    assert IsDigit(d[0]);
  }

  lemma SignedValueOfMinus(d: string)
    requires d != [] && AllDigits(d) && IsInt64(-(DigitsValue(d) as int))
    ensures SignedValue("-" + d) == Some(-(DigitsValue(d) as int))
  {
    DigitPrefixOfDigits(d);
    hide DigitsValue, DigitPrefix;
    assert ("-" + d)[1..] == d;
  }

  /** stoll undoes to_string on every 64-bit value, negative ones included. */
  lemma StollOfDecInt(n: int)
    requires IsInt64(n)
    ensures Stoll(DecInt(n)) == Some(n)
  {
    var m: nat := if n < 0 then -n else n;
    DigitsValueOfDec(m);
    hide DigitsValue, Dec, DigitPrefix, SignedValue;
    if n < 0 { SignedValueOfMinus(Dec(m)); } else { SignedValueOfDigits(Dec(m)); }
    assert IsDigit(Dec(m)[0]);
  }

  lemma {:induction false} SpacesSkipped(space: string, t: string)
    requires (forall i :: 0 <= i < |space| ==> IsSpace(space[i])) && (t != [] ==> !IsSpace(t[0]))
    ensures SkipSpace(space + t) == t
  {
    if space == [] {
      assert space + t == t;
    } else {
      assert (space + t)[1..] == space[1..] + t;
      SpacesSkipped(space[1..], t);
    }
  }

  lemma {:induction false} DigitsTaken(d: string, rest: string)
    requires AllDigits(d) && (rest != [] ==> !IsDigit(rest[0]))
    ensures DigitPrefix(d + rest) == d
  {
    if d == [] {
      assert d + rest == rest;
    } else {
      assert (d + rest)[1..] == d[1..] + rest;
      DigitsTaken(d[1..], rest);
    }
  }

  /** Digits, or something else, behind a sign. */
  lemma SignedDigits(sign: char, d: string, rest: string)
    requires sign in {'+', '-'} && AllDigits(d) && (rest != [] ==> !IsDigit(rest[0]))
    ensures var v := if sign == '-' then -(DigitsValue(d) as int) else DigitsValue(d);
      SignedValue([sign] + (d + rest)) == if d == "" || !IsInt64(v) then None else Some(v)
  {
    DigitsTaken(d, rest);
    hide DigitPrefix, DigitsValue, IsDigit;
    var t := [sign] + (d + rest);
    assert t[0] == sign && t[1..] == d + rest;
  }

  /** Digits, or something else that is no sign, on their own. */
  lemma UnsignedDigits(d: string, rest: string)
    requires AllDigits(d) && (rest != [] ==> !IsDigit(rest[0]))
    requires d == "" && rest != "" ==> rest[0] !in {'+', '-'}
    ensures SignedValue(d + rest) == if d == "" || !IsInt64(DigitsValue(d)) then None else Some(DigitsValue(d))
  {
    DigitsTaken(d, rest);
    var t := d + rest;
    if d != "" {
      assert t[0] == d[0] && IsDigit(d[0]);
    } else {
      assert t == rest;
    }
    hide DigitPrefix, DigitsValue;
  }

  /** A sign, or none, in front of digits or of something else. */
  lemma SignTaken(sign: string, d: string, rest: string)
    requires sign in {"", "+", "-"} && AllDigits(d) && (rest != [] ==> !IsDigit(rest[0]))
    requires sign == "" && d == "" && rest != "" ==> rest[0] !in {'+', '-'}
    ensures var v := if sign == "-" then -(DigitsValue(d) as int) else DigitsValue(d);
      SignedValue(sign + (d + rest)) == if d == "" || !IsInt64(v) then None else Some(v)
  {
    hide SignedValue, DigitsValue, IsDigit, AllDigits, IsInt64;
    if sign == "" {
      assert sign + (d + rest) == d + rest;
      UnsignedDigits(d, rest);
    } else {
      SignedDigits(sign[0], d, rest);
      assert sign == [sign[0]];
    }
  }

  /** White space, a sign or none, digits, and anything that does not go on with a digit: the value of the
      digits under the sign if there are any and it fits 64 bits, and else an exception. */
  lemma StollReads(space: string, sign: string, d: string, rest: string)
    requires (forall i :: 0 <= i < |space| ==> IsSpace(space[i])) && sign in {"", "+", "-"} && AllDigits(d)
    requires rest != [] ==> !IsDigit(rest[0])
    requires sign == "" && d == "" && rest != "" ==> rest[0] !in {'+', '-'} && !IsSpace(rest[0])
    ensures var v := if sign == "-" then -(DigitsValue(d) as int) else DigitsValue(d);
      Stoll(space + (sign + (d + rest))) == if d == "" || !IsInt64(v) then None else Some(v)
  {
    hide SignedValue, DigitsValue;
    var t := sign + (d + rest);
    SignTaken(sign, d, rest);
    if sign != "" {
      assert t[0] == sign[0];
    } else if d != "" {
      assert t[0] == d[0] && IsDigit(d[0]);
    } else {
      assert t == rest;
    }
    SpacesSkipped(space, t);
  }

  // ----- IPv4 text -----

  function JoinOctets(b: Octets): string
    requires b != []
  {
    if |b| == 1 then Dec(b[0]) else Dec(b[0]) + "." + JoinOctets(b[1..])
  }

  /** address_v4::to_string: the four octets of the address, most significant first. */
  function FormatV4(ip: u32): string {
    JoinOctets(Be32(ip))
  }

  /** One decimal octet in canonical form: no sign, no leading zero, at most 255. */
  function Octet(s: string): (r: Option<byte>)
    ensures r.Some? ==> s == Dec(r.value)
  {
    if s != [] && AllDigits(s) && DigitsValue(s) < 0x100 && Dec(DigitsValue(s)) == s
    then Some(DigitsValue(s))
    else None
  }

  lemma OctetOfDec(b: byte)
    ensures Octet(Dec(b)) == Some(b)
  {
    DigitsValueOfDec(b);
  }

  /** n canonical octets separated by dots, and nothing else. */
  function ParseOctets(s: string, n: nat): (r: Option<Octets>)
    requires n > 0
    ensures r.Some? ==> |r.value| == n
  {
    if n == 1 then
      match Octet(s)
      case None => None
      case Some(b) => Some([b])
    else
      match IndexOf(s, '.')
      case None => None
      case Some(p) =>
        match (Octet(s[..p]), ParseOctets(s[p + 1..], n - 1))
        case (Some(b), Some(rest)) => Some([b] + rest)
        case _ => None
  }

  /** make_address_v4 with an error code: None stands for ec being set. */
  function ParseV4(s: string): Option<u32> {
    match ParseOctets(s, 4)
    case None => None
    case Some(b) => Some(Word32(b))
  }

  lemma ParseOctetsCons(head: string, b: byte, tail: string, rest: Octets)
    requires '.' !in head && Octet(head) == Some(b)
    requires rest != [] && ParseOctets(tail, |rest|) == Some(rest)
    ensures ParseOctets(head + "." + tail, |rest| + 1) == Some([b] + rest)
  {
    var s := head + "." + tail;
    IndexOfFirst(head, '.', tail);
    assert s[..|head|] == head && s[|head| + 1..] == tail;
  }

  lemma JoinCons(head: string, b: byte, tail: Octets)
    requires tail != [] && head == Dec(b)
    ensures JoinOctets([b] + tail) == head + "." + JoinOctets(tail)
  {
    assert ([b] + tail)[1..] == tail;
  }

  lemma {:induction false} ParseOctetsOfJoin(b: Octets)
    requires b != []
    ensures ParseOctets(JoinOctets(b), |b|) == Some(b)
  {
    OctetOfDec(b[0]);
    if |b| > 1 {
      hide Octet, Dec, ParseOctets, JoinOctets;
      var head, rest := Dec(b[0]), b[1..];
      assert b == [b[0]] + rest;
      ParseOctetsOfJoin(rest);
      JoinCons(head, b[0], rest);
      ParseOctetsCons(head, b[0], JoinOctets(rest), rest);
    } else {
      hide Octet, Dec;
      assert b == [b[0]];
    }
  }

  lemma {:induction false} JoinOfParseOctets(s: string, n: nat)
    requires n > 0 && ParseOctets(s, n).Some?
    ensures JoinOctets(ParseOctets(s, n).value) == s
  {
    hide Octet, Dec, IndexOf;
    if n > 1 {
      var p := IndexOf(s, '.').value;
      JoinOfParseOctets(s[p + 1..], n - 1);
      JoinCons(s[..p], Octet(s[..p]).value, ParseOctets(s[p + 1..], n - 1).value);
      assert s == s[..p] + "." + s[p + 1..];
    }
  }

  /** Formatting and parsing IPv4 text are inverse bijections between addresses and canonical texts. */
  lemma V4TextRoundTrip(ip: u32)
    ensures ParseV4(FormatV4(ip)) == Some(ip)
  {
    Word32OfBe32(ip);
    ParseOctetsOfJoin(Be32(ip));
  }

  lemma V4TextIsCanonical(s: string)
    requires ParseV4(s).Some?
    ensures FormatV4(ParseV4(s).value) == s
  {
    JoinOfParseOctets(s, 4);
    Be32OfWord32(ParseOctets(s, 4).value);
  }

  // ----- endpoints -----

  datatype Endpoint = Endpoint(address: string, port: u16)

  /** The key of both allocation indexes and of the TCP session table. */
  function EndpointKey(ep: Endpoint): string {
    ep.address + ":" + Dec(ep.port)
  }

  /** Two endpoints share a key only when they are equal, even when an address contains colons itself. */
  lemma EndpointKeyInjective(a: Endpoint, b: Endpoint)
    requires EndpointKey(a) == EndpointKey(b)
    ensures a == b
  {
    var s, da, db := EndpointKey(a), Dec(a.port), Dec(b.port);
    var na, nb := |a.address|, |b.address|;
    assert s[na] == ':' && s[nb] == ':';
    assert forall i :: na < i < |s| ==> IsDigit(s[i]);
    assert forall i :: nb < i < |s| ==> IsDigit(s[i]);
    assert na == nb;
    assert a.address == s[..na] && b.address == s[..nb];
    assert da == s[na + 1..] && db == s[nb + 1..];
    DigitsValueOfDec(a.port);
    DigitsValueOfDec(b.port);
  }

  // ----- byte strings -----

  /** std::string(v.begin(), v.end()) of a byte vector. */
  function StringOf(v: Octets): string {
    seq(|v|, i requires 0 <= i < |v| => v[i] as char)
  }

  /** The bytes of a std::string; every character is one byte. */
  function BytesOf(s: string): Octets {
    seq(|s|, i requires 0 <= i < |s| => (s[i] as int) % 0x100)
  }

  predicate IsByteString(s: string) {
    forall i :: 0 <= i < |s| ==> s[i] as int < 0x100
  }

  lemma StringOfBytesOf(s: string)
    requires IsByteString(s)
    ensures StringOf(BytesOf(s)) == s
  {
  }
}
