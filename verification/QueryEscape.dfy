/** url.QueryEscape: percent-encoding of bytes as in section 2.1 of RFC 3986, with a space written as "+". */
module QueryEscape {
  import opened Text

  /** A Go string: a sequence of bytes, each a character below 256. */
  type ByteString = s: string | forall c | c in s :: c as int < 256

  predicate Unreserved(c: char) {
    'A' <= c <= 'Z' || 'a' <= c <= 'z' || '0' <= c <= '9' || c == '-' || c == '_' || c == '.' || c == '~'
  }

  /** Upper-case hexadecimal digit. */
  function HexDigit(n: nat): char
    requires n < 16
  {
    if n < 10 then '0' + n as char else 'A' + (n - 10) as char
  }

  function HexValue(c: char): Option<nat> {
    if '0' <= c <= '9' then Some((c - '0') as nat)
    else if 'A' <= c <= 'F' then Some((c - 'A') as nat + 10)
    else if 'a' <= c <= 'f' then Some((c - 'a') as nat + 10)
    else None
  }

  function EscapeChar(c: char): string
    requires c as int < 256
  {
    if Unreserved(c) then [c]
    else if c == ' ' then "+"
    else ['%', HexDigit(c as int / 16), HexDigit(c as int % 16)]
  }

  function Escape(s: ByteString): string {
    if s == [] then [] else EscapeChar(s[0]) + Escape(s[1..])
  }

  /** The inverse: None for a broken escape. */
  function Unescape(t: string): Option<string> {
    if t == [] then Some([])
    else if t[0] == '%' then
      if |t| < 3 || HexValue(t[1]).None? || HexValue(t[2]).None? then None
      else match Unescape(t[3..])
        case None => None
        case Some(r) => Some([(HexValue(t[1]).value * 16 + HexValue(t[2]).value) as char] + r)
    else match Unescape(t[1..])
      case None => None
      case Some(r) => Some([if t[0] == '+' then ' ' else t[0]] + r)
  }

  lemma HexRoundTrip(n: nat)
    requires n < 16
    ensures HexValue(HexDigit(n)) == Some(n)
  {
  }

  lemma {:induction false} RoundTrip(s: ByteString)
    ensures Unescape(Escape(s)) == Some(s)
  {
    if s != [] {
      RoundTrip(s[1..]);
      OneRoundTrip(s[0], Escape(s[1..]));
      assert s == [s[0]] + s[1..];
    }
  }

  lemma OneRoundTrip(c: char, rest: string)
    requires c as int < 256 && Unescape(rest).Some?
    ensures Unescape(EscapeChar(c) + rest) == Some([c] + Unescape(rest).value)
  {
    var t := EscapeChar(c) + rest;
    assert t[|EscapeChar(c)|..] == rest;
    if !Unreserved(c) && c != ' ' {
      HexRoundTrip(c as int / 16);
      HexRoundTrip(c as int % 16);
      assert (c as int / 16) * 16 + c as int % 16 == c as int;
    }
  }

  /** Different values have different escapes. */
  lemma Injective(a: ByteString, b: ByteString)
    requires Escape(a) == Escape(b)
    ensures a == b
  {
    RoundTrip(a);
    RoundTrip(b);
  }

  /** An escaped value holds nothing but unreserved characters, "%" and "+", so it cannot imitate a separator. */
  lemma {:induction false} EscapedAlphabet(s: ByteString)
    ensures forall c | c in Escape(s) :: Unreserved(c) || c == '%' || c == '+'
  {
    if s != [] {
      EscapedAlphabet(s[1..]);
    }
  }
}
