/** Byte strings and their hexadecimal text. */
module Hexadecimal {
  import opened Basics

  predicate AllBytes(s: string) {
    forall k :: 0 <= k < |s| ==> s[k] as int < 256
  }

  /** A std::string: a sequence of bytes. */
  type Bytes = s: string | AllBytes(s) witness ""

  function HexDigit(n: nat): char
    requires n < 16
  {
    if n < 10 then '0' + n as char else 'a' + (n - 10) as char
  }

  /** Two digits for each byte. */
  function Hex(s: string): Bytes {
    if s == "" then "" else [HexDigit(s[0] as int / 16 % 16), HexDigit(s[0] as int % 16)] + Hex(s[1..])
  }

  function Nibble(c: char): Option<nat> {
    if '0' <= c <= '9' then Some((c - '0') as nat)
    else if 'a' <= c <= 'f' then Some(10 + (c - 'a') as nat)
    else if 'A' <= c <= 'F' then Some(10 + (c - 'A') as nat)
    else None
  }

  function Unhex(s: string): Option<Bytes> {
    if s == "" then Some("")
    else if |s| == 1 then None
    else
      match (Nibble(s[0]), Nibble(s[1]))
      case (Some(a), Some(b)) =>
        (match Unhex(s[2..])
         case Some(rest) => if a < 16 && b < 16 then Some([(16 * a + b) as char] + rest) else None
         case None => None)
      case _ => None
  }

  lemma {:induction false} UnhexOfHex(s: string)
    requires AllBytes(s)
    ensures Unhex(Hex(s)) == Some(s)
  {
    if s != "" {
      var h := Hex(s);
      var c := s[0] as int;
      assert h[2..] == Hex(s[1..]);
      UnhexOfHex(s[1..]);
      assert c / 16 % 16 == c / 16;
      assert Nibble(h[0]) == Some(c / 16) && Nibble(h[1]) == Some(c % 16);
      assert [(16 * (c / 16) + c % 16) as char] + s[1..] == s;
    }
  }

  /** Only hexadecimal digits make hexadecimal text. */
  lemma {:induction false} UnhexNeedsDigits(s: string, k: nat)
    requires k < |s| && Nibble(s[k]).None?
    ensures Unhex(s) == None
  {
    if |s| > 1 && k >= 2 { UnhexNeedsDigits(s[2..], k - 2); }
  }

  lemma {:induction false} UnhexNeedsPairs(s: string)
    requires |s| % 2 == 1
    ensures Unhex(s) == None
  {
    if |s| > 1 { UnhexNeedsPairs(s[2..]); }
  }

  lemma UnhexEmpty(s: string)
    requires Unhex(s) == Some("")
    ensures s == ""
  {
  }
}
