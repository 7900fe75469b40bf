/**
  The two encodings a token's claims pass through: percent-encoding (section 2.1 of RFC 3986, with the form
  convention of a plus for a space) and base64 with the URL-safe alphabet (section 5 of RFC 4648), both over bytes.
 */
module TokenText {
  import opened Text

  predicate IsByte(c: char) { c as int < 256 }

  /** A Go string: any sequence of bytes. */
  predicate Bytes(s: string) { forall i :: 0 <= i < |s| ==> IsByte(s[i]) }

  // ---- percent-encoding ----------------------------------------------------------------------

  predicate IsUnreserved(c: char)
  {
    'A' <= c <= 'Z' || 'a' <= c <= 'z' || IsDigit(c) || c in "-_.~"
  }

  function HexDigit(d: nat): (c: char)
    requires d < 16
  {
    if d < 10 then ('0' as int + d) as char else ('A' as int + d - 10) as char
  }

  function HexValue(c: char): Option<nat>
  {
    if IsDigit(c) then Some(c as int - '0' as int)
    else if 'A' <= c <= 'F' then Some(c as int - 'A' as int + 10)
    else if 'a' <= c <= 'f' then Some(c as int - 'a' as int + 10)
    else None
  }

  function EscapeByte(c: char): string
    requires IsByte(c)
  {
    if IsUnreserved(c) then [c]
    else if c == ' ' then "+"
    else ['%', HexDigit(c as int / 16), HexDigit(c as int % 16)]
  }

  /** url.QueryEscape. */
  function Escape(s: string): string
    requires Bytes(s)
  {
    if s == [] then [] else EscapeByte(s[0]) + Escape(s[1..])
  }

  /** url.QueryUnescape. */
  function Unescape(s: string): Option<string>
  {
    if s == [] then Some([])
    else if s[0] == '%' then
      if |s| < 3 || HexValue(s[1]).None? || HexValue(s[2]).None? then None
      else
        match Unescape(s[3..])
        case None => None
        case Some(rest) => Some([(HexValue(s[1]).value * 16 + HexValue(s[2]).value) as char] + rest)
    else
      match Unescape(s[1..])
      case None => None
      case Some(rest) => Some([if s[0] == '+' then ' ' else s[0]] + rest)
  }

  lemma HexRoundTrip(d: nat)
    requires d < 16
    ensures HexValue(HexDigit(d)) == Some(d)
  {
  }

  lemma UnescapeByte(c: char, rest: string)
    requires IsByte(c) && Unescape(rest).Some?
    ensures Unescape(EscapeByte(c) + rest) == Some([c] + Unescape(rest).value)
  {
    var e := EscapeByte(c);
    var s := e + rest;
    if !IsUnreserved(c) && c != ' ' {
      HexRoundTrip(c as int / 16);
      HexRoundTrip(c as int % 16);
      assert s[3..] == rest;
      assert s[1] == HexDigit(c as int / 16) && s[2] == HexDigit(c as int % 16);
    } else {
      assert s[1..] == rest;
    }
  }

  /** Every value comes back as it was. */
  lemma {:induction false} EscapeRoundTrip(s: string)
    requires Bytes(s)
    ensures Unescape(Escape(s)) == Some(s)
  {
    if s != [] {
      EscapeRoundTrip(s[1..]);
      UnescapeByte(s[0], Escape(s[1..]));
      assert [s[0]] + s[1..] == s;
    }
  }

  /** An escaped value cannot hold a character that would end it or split it. */
  lemma {:induction false} EscapedIsInert(s: string, c: char)
    requires Bytes(s) && c in "&= "
    ensures c !in Escape(s)
  {
    if s != [] {
      EscapedIsInert(s[1..], c);
      assert forall d: nat :: d < 16 ==> HexDigit(d) != c;
    }
  }

  /** Text of unreserved characters is its own escape. */
  lemma {:induction false} PlainIsItsOwnEscape(s: string)
    requires forall i :: 0 <= i < |s| ==> IsUnreserved(s[i])
    ensures Bytes(s) && Escape(s) == s
  {
    forall i | 0 <= i < |s| ensures IsByte(s[i]) { assert IsUnreserved(s[i]); }
    if s != [] {
      PlainIsItsOwnEscape(s[1..]);
      assert [s[0]] + s[1..] == s;
    }
  }

  // ---- base64url --------------------------------------------------------------------------------

  function Symbol(v: nat): (c: char)
    requires v < 64
  {
    if v < 26 then ('A' as int + v) as char
    else if v < 52 then ('a' as int + v - 26) as char
    else if v < 62 then ('0' as int + v - 52) as char
    else if v == 62 then '-' else '_'
  }

  function SymbolValue(c: char): (v: Option<nat>)
    ensures v.Some? ==> v.value < 64
  {
    if 'A' <= c <= 'Z' then Some(c as int - 'A' as int)
    else if 'a' <= c <= 'z' then Some(c as int - 'a' as int + 26)
    else if '0' <= c <= '9' then Some(c as int - '0' as int + 52)
    else if c == '-' then Some(62)
    else if c == '_' then Some(63)
    else None
  }

  lemma SymbolRoundTrip(v: nat)
    requires v < 64
    ensures SymbolValue(Symbol(v)) == Some(v)
  {
  }

  /** The four characters for one to three bytes, padded. */
  function EncodeGroup(g: string): (e: string)
    requires 1 <= |g| <= 3 && Bytes(g)
    ensures |e| == 4
  {
    var a := g[0] as int;
    var b := if |g| > 1 then g[1] as int else 0;
    var c := if |g| > 2 then g[2] as int else 0;
    [Symbol(a / 4), Symbol(a % 4 * 16 + b / 16),
     if |g| > 1 then Symbol(b % 16 * 4 + c / 64) else '=', if |g| > 2 then Symbol(c % 64) else '=']
  }

  function Encode64(s: string): string
    requires Bytes(s)
  {
    if s == [] then []
    else if |s| <= 3 then EncodeGroup(s)
    else EncodeGroup(s[..3]) + Encode64(s[3..])
  }

  /** One group of four; padding is allowed only in the last. */
  function DecodeGroup(e: string, last: bool): Option<string>
    requires |e| == 4
  {
    var v0, v1, v2, v3 := SymbolValue(e[0]), SymbolValue(e[1]), SymbolValue(e[2]), SymbolValue(e[3]);
    if v0.None? || v1.None? then None
    else
      var a := (v0.value * 4 + v1.value / 16) as char;
      if last && e[2] == '=' && e[3] == '=' then Some([a])
      else if v2.None? then None
      else
        var b := (v1.value % 16 * 16 + v2.value / 4) as char;
        if last && e[3] == '=' then Some([a, b])
        else if v3.None? then None
        else Some([a, b, (v2.value % 4 * 64 + v3.value) as char])
  }

  function DecodeGroups(e: string): Option<string>
  {
    if e == [] then Some([])
    else if |e| < 4 then None
    else
      match DecodeGroup(e[..4], |e| == 4)
      case None => None
      case Some(g) => (match DecodeGroups(e[4..]) case None => None case Some(rest) => Some(g + rest))
  }

  /** The decoder skips line breaks. */
  function WithoutBreaks(s: string): string
  {
    if s == [] then [] else (if s[0] in "\r\n" then [] else [s[0]]) + WithoutBreaks(s[1..])
  }

  function Decode64(s: string): Option<string> { DecodeGroups(WithoutBreaks(s)) }

  lemma OneByteRoundTrip(g: string)
    requires |g| == 1 && Bytes(g)
    ensures DecodeGroup(EncodeGroup(g), true) == Some(g)
  {
    var a := g[0] as int;
    SymbolRoundTrip(a / 4);
    SymbolRoundTrip(a % 4 * 16);
    Packed(a, 0, 4, 16);
    assert SymbolValue('=') == None && g == [g[0]];
  }

  lemma TwoBytesRoundTrip(g: string)
    requires |g| == 2 && Bytes(g)
    ensures DecodeGroup(EncodeGroup(g), true) == Some(g)
  {
    var a, b := g[0] as int, g[1] as int;
    SymbolRoundTrip(a / 4);
    SymbolRoundTrip(a % 4 * 16 + b / 16);
    SymbolRoundTrip(b % 16 * 4);
    Packed(a, b / 16, 4, 16);
    Packed(b, 0, 16, 4);
    assert SymbolValue('=') == None && g == [g[0], g[1]];
  }

  lemma ThreeBytesRoundTrip(g: string, last: bool)
    requires |g| == 3 && Bytes(g)
    ensures DecodeGroup(EncodeGroup(g), last) == Some(g)
  {
    var a, b, c := g[0] as int, g[1] as int, g[2] as int;
    SymbolRoundTrip(a / 4);
    SymbolRoundTrip(a % 4 * 16 + b / 16);
    SymbolRoundTrip(b % 16 * 4 + c / 64);
    SymbolRoundTrip(c % 64);
    Packed(a, b / 16, 4, 16);
    Packed(b, c / 64, 16, 4);
    assert c / 64 * 64 + c % 64 == c;
    assert SymbolValue('=') == None && g == [g[0], g[1], g[2]];
  }

  lemma GroupRoundTrip(g: string, last: bool)
    requires 1 <= |g| <= 3 && Bytes(g) && (|g| < 3 ==> last)
    ensures DecodeGroup(EncodeGroup(g), last) == Some(g)
  {
    if |g| == 1 { OneByteRoundTrip(g); } else if |g| == 2 { TwoBytesRoundTrip(g); } else { ThreeBytesRoundTrip(g, last); }
  }

  /** Six bits made of what one byte has left over and what the next one gives. */
  lemma Packed(a: nat, high: nat, m: nat, n: nat)
    requires high < n && (m, n) in {(4, 16), (16, 4)}
    ensures (a % m * n + high) / n == a % m && (a % m * n + high) % n == high && a == a / m * m + a % m
  {
  }

  lemma {:induction false} GroupsRoundTrip(s: string)
    requires Bytes(s)
    ensures DecodeGroups(Encode64(s)) == Some(s)
  {
    if s != [] {
      if |s| <= 3 {
        GroupRoundTrip(s, true);
        assert EncodeGroup(s)[..4] == EncodeGroup(s) && EncodeGroup(s)[4..] == [];
        assert DecodeGroups([]) == Some([]);
        assert s + [] == s;
      } else {
        GroupsRoundTrip(s[3..]);
        var e := EncodeGroup(s[..3]);
        assert Encode64(s)[..4] == e && Encode64(s)[4..] == Encode64(s[3..]);
        GroupRoundTrip(s[..3], |Encode64(s)| == 4);
        assert s[..3] + s[3..] == s;
      }
    }
  }

  /** Only the alphabet and the padding: no dot, no line break. */
  lemma {:induction false} EncodedAlphabet(s: string)
    requires Bytes(s)
    ensures forall c :: c in Encode64(s) ==> c == '=' || SymbolValue(c).Some?
  {
    assert forall v: nat :: v < 64 ==> SymbolValue(Symbol(v)).Some?;
    if |s| > 3 { EncodedAlphabet(s[3..]); }
  }

  lemma {:induction false} NoBreaksToSkip(s: string)
    requires forall c :: c in s ==> c !in "\r\n"
    ensures WithoutBreaks(s) == s
  {
    if s != [] {
      assert s[0] in s;
      assert forall c :: c in s[1..] ==> c in s;
      NoBreaksToSkip(s[1..]);
    }
  }

  /** base64.URLEncoding decodes what it encoded. */
  lemma Base64RoundTrip(s: string)
    requires Bytes(s)
    ensures Decode64(Encode64(s)) == Some(s)
  {
    GroupsRoundTrip(s);
    EncodedAlphabet(s);
    NoBreaksToSkip(Encode64(s));
  }

  // ---- hex ---------------------------------------------------------------------------------------

  function LowerHexDigit(d: nat): char
    requires d < 16
  {
    if d < 10 then ('0' as int + d) as char else ('a' as int + d - 10) as char
  }

  /** hex.EncodeToString. */
  function Hex(s: string): string
    requires Bytes(s)
  {
    if s == [] then [] else [LowerHexDigit(s[0] as int / 16), LowerHexDigit(s[0] as int % 16)] + Hex(s[1..])
  }

  lemma {:induction false} HexIsPlain(s: string)
    requires Bytes(s)
    ensures forall i :: 0 <= i < |Hex(s)| ==> IsUnreserved(Hex(s)[i]) && Hex(s)[i] != '.'
  {
    assert forall d: nat :: d < 16 ==> IsUnreserved(LowerHexDigit(d)) && LowerHexDigit(d) != '.';
    if s != [] { HexIsPlain(s[1..]); }
  }
}
