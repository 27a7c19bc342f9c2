/** How the relay reads one value out of a request target (relay_server.cpp). */
module Query {
  import opened ByteStrings
  import opened Text

  /** The value of a hexadecimal digit, either case. */
  function HexValue(c: char): (v: Option<nat>)
    ensures v.Some? ==> v.value < 16
  {
    if '0' <= c <= '9' then Some(c as nat - '0' as nat)
    else if 'a' <= c <= 'f' then Some(c as nat - 'a' as nat + 10)
    else if 'A' <= c <= 'F' then Some(c as nat - 'A' as nat + 10)
    else None
  }

  /** The low octet of what extracting an unsigned number in base 16 from a stream of two
      characters yields: leading space and a sign are taken, a minus wraps around, and a
      second character that is no digit ends the number. Nothing to extract gives 0. */
  function Escape(a: char, b: char): (v: nat)
    ensures v < 256
  {
    match (HexValue(a), HexValue(b))
    case (Some(high), Some(low)) => high * 16 + low
    case (Some(digit), None) => digit
    case (None, Some(digit)) =>
      if IsSpace(a) || a == '+' then digit
      else if a == '-' then (256 - digit) % 256
      else 0
    case (None, None) => 0
  }

  /** The 22 digits and nothing else. */
  lemma HexDigitValue(c: char, d: nat)
    requires d < 16
    ensures HexValue(c) == Some(d) <==> c == "0123456789abcdef"[d] || (10 <= d && c == "ABCDEF"[d - 10])
  {
  }

  // What extracting an unsigned number in base 16 does to a stream of any length: skip white
  // space, take a sign, then digits as long as there are any.

  function Digits(s: string, n: nat): nat
  {
    if s == "" || HexValue(s[0]).None? then n else Digits(s[1..], n * 16 + HexValue(s[0]).value)
  }

  function Signed(s: string): int
  {
    if s != "" && s[0] == '-' then 0 - Digits(s[1..], 0)
    else if s != "" && s[0] == '+' then Digits(s[1..], 0)
    else Digits(s, 0)
  }

  /** A negative number is taken modulo 2^32. */
  function Extracted(s: string): nat
  {
    if s != "" && IsSpace(s[0]) then Extracted(s[1..]) else Signed(s) % TWO_32
  }

  lemma OneDigit(b: char, n: nat)
    ensures Digits([b], n) == if HexValue(b).Some? then n * 16 + HexValue(b).value else n
  {
    assert [b][1..] == "";
  }

  lemma TwoDigits(a: char, b: char)
    ensures Digits([a, b], 0) == if HexValue(a).None? then 0 else Digits([b], HexValue(a).value)
  {
    assert [a, b][1..] == [b];
  }

  lemma OneExtracted(b: char)
    ensures Extracted([b]) == if HexValue(b).Some? then HexValue(b).value else 0
  {
    OneDigit(b, 0);
    assert [b][1..] == "";
  }

  lemma TwoSigned(a: char, b: char)
    ensures Signed([a, b]) == if a == '-' then 0 - Digits([b], 0)
                              else if a == '+' then Digits([b], 0) else Digits([a, b], 0)
  {
    assert [a, b][1..] == [b];
  }

  lemma LowOctet(x: int)
    requires -16 < x < 256
    ensures x % TWO_32 % 256 == if x < 0 then x + 256 else x
  {
    assert x % TWO_32 == if x < 0 then x + TWO_32 else x;
  }

  /** The escape is the low octet of the extracted number, for any two characters. */
  lemma EscapeIsExtracted(a: char, b: char)
    ensures Escape(a, b) == Extracted([a, b]) % 256
  {
    OneDigit(b, 0);
    if IsSpace(a) {
      OneExtracted(b);
      assert [a, b][1..] == [b];
    } else {
      EscapeIsSigned(a, b);
    }
  }

  lemma EscapeIsSigned(a: char, b: char)
    requires !IsSpace(a)
    ensures Escape(a, b) == Signed([a, b]) % TWO_32 % 256
  {
    TwoSigned(a, b);
    TwoDigits(a, b);
    OneDigit(b, 0);
    if HexValue(a).Some? {
      OneDigit(b, HexValue(a).value);
    }
    LowOctet(Signed([a, b]));
  }

  /** url_decode: a percent sign counts only with two characters behind it. */
  function Decoded(s: string): (r: string)
    ensures |r| <= |s| && (r == "" ==> s == "")
  {
    if s == "" then ""
    else if s[0] == '%' && 2 < |s| then [Escape(s[1], s[2]) as char] + Decoded(s[3..])
    else [if s[0] == '+' then ' ' else s[0]] + Decoded(s[1..])
  }

  method UrlDecode(s: string) returns (out: string)
    ensures out == Decoded(s)
  {
    out := "";
    var i := 0;
    while i < |s|
      invariant i <= |s| && out + Decoded(s[i..]) == Decoded(s)
    {
      DecodedAt(out, s, i);
      if s[i] == '%' && i + 2 < |s| {
        out := out + [Escape(s[i + 1], s[i + 2]) as char];
        i := i + 2;
      } else if s[i] == '+' {
        out := out + " ";
      } else {
        out := out + [s[i]];
      }
      i := i + 1;
    }
  }

  lemma DecodedAt(out: string, s: string, i: nat)
    requires i < |s|
    ensures out + Decoded(s[i..]) ==
            if s[i] == '%' && i + 2 < |s| then out + [Escape(s[i + 1], s[i + 2]) as char] + Decoded(s[i + 3..])
            else out + [if s[i] == '+' then ' ' else s[i]] + Decoded(s[i + 1..])
  {
  }

  /** How one part of a query is read: its value if its key, decoded, is the wanted one. */
  function PartValue(part: string, key: string): Option<string>
  {
    var (k, v) := Cut(part, '=');
    if Decoded(k) == key then Some(if v.Some? then Decoded(v.value) else "") else None
  }

  /** The first such value in the parts of a query. */
  function ValueIn(query: string, key: string): string
    decreases |query|
  {
    if query == "" then ""
    else
      var (part, rest) := Cut(query, '&');
      var v := PartValue(part, key);
      if v.Some? then v.value else if rest.None? then "" else ValueIn(rest.value, key)
  }

  /** The value a request target gives to key. */
  function QueryValue(target: string, key: string): string
  {
    var (_, query) := Cut(target, '?');
    if query.None? then "" else ValueIn(query.value, key)
  }

  method ReadPart(part: string, key: string) returns (r: Option<string>)
    ensures r == PartValue(part, key)
  {
    var eq := Find(part, "=", 0);
    CutFound(part, '=', 0);
    assert part[0..] == part;
    var k := UrlDecode(if eq == NPOS then part else part[..eq]);
    var v := UrlDecode(if eq == NPOS then "" else part[eq + 1..]);
    r := if k == key then Some(v) else None;
  }

  method GetQueryValue(target: string, key: string) returns (value: string)
    ensures value == QueryValue(target, key)
  {
    var q := Find(target, "?", 0);
    CutFound(target, '?', 0);
    assert target[0..] == target;
    if q == NPOS {
      return "";
    }
    value := FirstValueIn(target[q + 1..], key);
  }

  method FirstValueIn(query: string, key: string) returns (value: string)
    ensures value == ValueIn(query, key)
  {
    var pos := 0;
    while pos < |query|
      invariant pos <= |query| && ValueIn(query[pos..], key) == ValueIn(query, key)
    {
      var amp := Find(query, "&", pos);
      CutFound(query, '&', pos);
      var part := if amp == NPOS then query[pos..] else query[pos..amp];
      var found := ReadPart(part, key);
      if found.Some? {
        return found.value;
      }
      if amp == NPOS {
        break;
      }
      pos := amp + 1;
    }
    return "";
  }

  // ---- Percent-encoding (RFC 3986, section 2.1)

  /** e is a percent-encoding of text: each character stands for itself unless it has a
      meaning in a query, is written as two hexadecimal digits of either case, or is a
      space written as a plus. */
  predicate Encodes(e: string, text: string)
    decreases |e|
  {
    if text == "" then e == ""
    else
      e != "" &&
      if e[0] == '%' then
        3 <= |e| && HexValue(e[1]).Some? && HexValue(e[2]).Some? &&
        HexValue(e[1]).value * 16 + HexValue(e[2]).value == text[0] as int && Encodes(e[3..], text[1..])
      else
        (if e[0] == '+' then text[0] == ' ' else e[0] == text[0] && e[0] !in "&=") && Encodes(e[1..], text[1..])
  }

  predicate Octets(text: string) { forall i :: 0 <= i < |text| ==> text[i] as int < 256 }

  function HexDigit(d: nat): (c: char)
    requires d < 16
    ensures HexValue(c) == Some(d)
  {
    if d < 10 then '0' + d as char else 'A' + (d - 10) as char
  }

  /** One encoding of any octet string: everything escaped. */
  function Escaped(text: string): (e: string)
    requires Octets(text)
  {
    if text == "" then ""
    else ['%', HexDigit(text[0] as int / 16), HexDigit(text[0] as int % 16)] + Escaped(text[1..])
  }

  lemma {:induction false} EscapedEncodes(text: string)
    requires Octets(text)
    ensures Encodes(Escaped(text), text)
  {
    if text != "" {
      EscapedEncodes(text[1..]);
      assert Escaped(text)[3..] == Escaped(text[1..]);
    }
  }

  /** Decoding inverts every encoding. */
  lemma {:induction false} DecodeInverts(e: string, text: string)
    requires Encodes(e, text)
    ensures Decoded(e) == text && '&' !in e && '=' !in e
    decreases |e|
  {
    if text != "" {
      if e[0] == '%' {
        DecodeInverts(e[3..], text[1..]);
        assert e == e[..3] + e[3..];
      } else {
        DecodeInverts(e[1..], text[1..]);
        assert e == e[..1] + e[1..];
      }
    }
  }

  type Pair = (string, string)

  /** A part of a query as it is written: a key, and a value if there is an '='. */
  type Part = (string, Option<string>)

  function PartText(part: Part): string
  {
    if part.1.None? then part.0 else part.0 + "=" + part.1.value
  }

  /** Parts joined by '&'. */
  function Joined(parts: seq<Part>): string
  {
    if parts == [] then ""
    else PartText(parts[0]) + (if |parts| == 1 then "" else "&" + Joined(parts[1..]))
  }

  /** The part stands for the pair, percent-encoded in any way; an empty value may be left out
      with its '='. */
  predicate StandsFor(part: Part, pair: Pair)
  {
    && Encodes(part.0, pair.0)
    && if part.1.None? then pair.1 == "" else Encodes(part.1.value, pair.1)
  }

  predicate StandForAll(parts: seq<Part>, pairs: seq<Pair>)
  {
    |parts| == |pairs| && forall i :: 0 <= i < |pairs| ==> StandsFor(parts[i], pairs[i])
  }

  /** The value of the first pair with this key, empty if there is none. */
  function FirstValue(pairs: seq<Pair>, key: string): string
  {
    if pairs == [] then "" else if pairs[0].0 == key then pairs[0].1 else FirstValue(pairs[1..], key)
  }

  lemma PartRead(part: Part, pair: Pair, key: string)
    requires StandsFor(part, pair)
    ensures PartValue(PartText(part), key) == if pair.0 == key then Some(pair.1) else None
    ensures '&' !in PartText(part)
  {
    DecodeInverts(part.0, pair.0);
    if part.1.None? {
      CutWhole(part.0, '=');
    } else {
      DecodeInverts(part.1.value, pair.1);
      CutJoined(part.0, '=', part.1.value);
    }
  }

  lemma ValueInFirst(part: string, rest: string, key: string)
    requires '&' !in part
    ensures var v := PartValue(part, key);
            ValueIn(part + "&" + rest, key) == if v.Some? then v.value else ValueIn(rest, key)
  {
    CutJoined(part, '&', rest);
  }

  lemma ValueInLast(part: string, key: string)
    requires '&' !in part && part != ""
    ensures var v := PartValue(part, key); ValueIn(part, key) == if v.Some? then v.value else ""
  {
    CutWhole(part, '&');
  }

  lemma {:induction false} ValueInJoined(parts: seq<Part>, pairs: seq<Pair>, key: string)
    requires StandForAll(parts, pairs)
    ensures ValueIn(Joined(parts), key) == FirstValue(pairs, key)
    decreases |pairs|
  {
    if pairs != [] {
      var part, rest := PartText(parts[0]), Joined(parts[1..]);
      PartRead(parts[0], pairs[0], key);
      ValueInJoined(parts[1..], pairs[1..], key);
      if |pairs| > 1 {
        ValueInFirst(part, rest, key);
        assert Joined(parts) == part + ("&" + rest) == part + "&" + rest;
      } else {
        assert Joined(parts) == part + "" == part;
        if part != "" {
          ValueInLast(part, key);
        }
      }
    }
  }

  /** A target with a query of encoded pairs gives each key its first value, whichever
      encoding the sender chose; without a query it gives none. */
  lemma FirstPairWins(path: string, parts: seq<Part>, pairs: seq<Pair>, key: string)
    requires '?' !in path && StandForAll(parts, pairs)
    ensures QueryValue(path + "?" + Joined(parts), key) == FirstValue(pairs, key)
    ensures QueryValue(path, key) == ""
  {
    CutJoined(path, '?', Joined(parts));
    ValueInJoined(parts, pairs, key);
    CutWhole(path, '?');
  }

  /** Decoding leaves a string as it is exactly when it has no plus, and no percent sign
      with two characters behind it. */
  predicate Unescaped(s: string)
  {
    forall i :: 0 <= i < |s| ==> s[i] != '+' && (s[i] == '%' ==> |s| <= i + 2)
  }

  lemma {:induction false} DecodedIsSame(s: string)
    ensures Decoded(s) == s <==> Unescaped(s)
    decreases |s|
  {
    if s != "" && !(s[0] == '%' && 2 < |s|) {
      var rest := s[1..];
      DecodedIsSame(rest);
      assert s == [s[0]] + rest;
      if Decoded(s) == s {
        assert Decoded(rest) == Decoded(s)[1..];
      }
      if Unescaped(s) {
        assert forall i :: 0 <= i < |rest| ==> rest[i] == s[i + 1];
      }
      if Unescaped(rest) && s[0] != '+' {
        assert forall i :: 1 <= i < |s| ==> s[i] == rest[i - 1];
      }
    }
  }
}
