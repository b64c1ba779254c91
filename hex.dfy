/** Lowercase hexadecimal without padding, as Rust's `{:x}` formats an
    unsigned integer, and the member names of strong collections built from it. */
module Hex {
  import opened Errors

  const DIGITS: string := "0123456789abcdef"

  function HexDigit(d: nat): char
    requires d < 16
  {
    DIGITS[d]
  }

  /** The value of one lowercase hexadecimal digit. */
  function DigitValue(c: char): Option<nat>
  {
    if '0' <= c <= '9' then Some(c as nat - '0' as nat)
    else if 'a' <= c <= 'f' then Some(c as nat - 'a' as nat + 10)
    else None
  }

  /** `format!("{:x}", n)`: the shortest lowercase digit string, "0" for zero. */
  function Hex(n: nat): (r: string)
    ensures |r| >= 1
    ensures forall i :: 0 <= i < |r| ==> DigitValue(r[i]).Some?
    ensures r[0] == '0' <==> n == 0
    ensures n == 0 ==> r == "0"
    decreases n
  {
    if n < 16 then [HexDigit(n)] else Hex(n / 16) + [HexDigit(n % 16)]
  }

  /** The value of a string of lowercase hexadecimal digits; `None` on any
      other character. */
  function ParseHex(s: string): Option<nat>
    decreases |s|
  {
    if s == [] then Some(0)
    else
      match (ParseHex(s[..|s| - 1]), DigitValue(s[|s| - 1]))
      case (Some(hi), Some(lo)) => Some(16 * hi + lo)
      case _ => None
  }

  lemma DigitRoundTrip(d: nat)
    requires d < 16
    ensures DigitValue(HexDigit(d)) == Some(d)
  {
  }

  /** Reading the digits back gives the number. */
  lemma {:induction false} HexRoundTrip(n: nat)
    ensures ParseHex(Hex(n)) == Some(n)
    decreases n
  {
    DigitRoundTrip(n % 16);
    if n < 16 {
      assert Hex(n)[..0] == [];
    } else {
      var s := Hex(n);
      assert s[..|s| - 1] == Hex(n / 16);
      HexRoundTrip(n / 16);
    }
  }

  /** Distinct keys have distinct spellings. */
  lemma HexInjective(a: nat, b: nat)
    ensures Hex(a) == Hex(b) <==> a == b
  {
    HexRoundTrip(a);
    HexRoundTrip(b);
  }

  /** A member storage name: the property name, then the key in braces. */
  function MemberName(name: string, key: nat): (r: string)
  {
    name + "{" + Hex(key) + "}"
  }

  /** The key is recovered from a member name that carries a known property name. */
  function MemberKey(name: string, member: string): Option<nat>
  {
    if |member| < |name| + 3 || member[..|name| + 1] != name + "{" || member[|member| - 1] != '}'
    then None
    else ParseHex(member[|name| + 1..|member| - 1])
  }

  lemma MemberNameRoundTrip(name: string, key: nat)
    ensures MemberKey(name, MemberName(name, key)) == Some(key)
  {
    var m := MemberName(name, key);
    assert m[..|name| + 1] == name + "{";
    assert m[|name| + 1..|m| - 1] == Hex(key);
    HexRoundTrip(key);
  }

  /** Two members of one collection share a storage name only when they share a key. */
  lemma MemberNameInjective(name: string, a: nat, b: nat)
    ensures MemberName(name, a) == MemberName(name, b) <==> a == b
  {
    MemberNameRoundTrip(name, a);
    MemberNameRoundTrip(name, b);
  }
}
