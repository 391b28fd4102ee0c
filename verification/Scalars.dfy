/**
 * Texts as the Unicode scalar values they encode: what well-formed UTF-8 is (section 3 of RFC 3629), and which of the
 * characters trimming takes off.
 */
module Scalars {
  import opened Utf8
  import opened Spaces

  /** A code point that is no surrogate. */
  predicate Scalar(c: nat) {
    c < 0xD800 || 0xE000 <= c <= 0x10FFFF
  }

  /** A scalar value's bytes: seven bits in one, eleven in two, sixteen in three, twenty-one in four. */
  function Encoded(c: nat): (s: string)
    requires Scalar(c)
    ensures 1 <= |s| <= 4
  {
    if c < 0x80 then [c as char]
    else if c < 0x800 then [(0xC0 + c / 64) as char, Low6(c)]
    else if c < 0x10000 then [(0xE0 + c / 4096) as char, Low6(c / 64), Low6(c)]
    else [(0xF0 + c / 262144) as char, Low6(c / 4096), Low6(c / 64), Low6(c)]
  }

  function Low6(c: nat): char {
    (0x80 + c % 64) as char
  }

  predicate Scalars(cs: seq<nat>) {
    forall k :: 0 <= k < |cs| ==> Scalar(cs[k])
  }

  function EncodedAll(cs: seq<nat>): string
    requires Scalars(cs)
  {
    if |cs| == 0 then "" else Encoded(cs[0]) + EncodedAll(cs[1..])
  }

  /** The six-bit digits of a number. */
  lemma Sixes(c: nat)
    ensures c == c / 64 * 64 + c % 64
    ensures c / 4096 == c / 64 / 64 && c / 262144 == c / 64 / 64 / 64
  {
  }

  lemma EncodedLeads(c: nat, more: string)
    requires Scalar(c)
    ensures Leads(Encoded(c) + more) == |Encoded(c)|
  {
    Sixes(c);
    Sixes(c / 64);
    Sixes(c / 4096);
    var s := Encoded(c) + more;
    assert forall k :: 0 <= k < |Encoded(c)| ==> s[k] == Encoded(c)[k];
  }

  lemma Digit(high: nat, low: nat)
    requires low < 64
    ensures (high * 64 + low) / 64 == high && (high * 64 + low) % 64 == low
  {
  }

  /** The scalar value a well-formed character is the bytes of. */
  lemma LeadsEncoded(s: string) returns (c: nat)
    requires |s| > 0 && Leads(s) > 0
    ensures Scalar(c) && s[..Leads(s)] == Encoded(c)
  {
    var n := Leads(s);
    var a := s[0] as int;
    if n == 1 {
      c := a;
    } else if n == 2 {
      c := (a - 0xC0) * 64 + (s[1] as int - 0x80);
      Digit(a - 0xC0, s[1] as int - 0x80);
    } else if n == 3 {
      c := ThreeBytes(s);
    } else {
      c := FourBytes(s);
    }
  }

  lemma ThreeBytes(s: string) returns (c: nat)
    requires |s| > 0 && Leads(s) == 3
    ensures Scalar(c) && s[..3] == Encoded(c)
  {
    var (a, b, d) := (s[0] as int - 0xE0, s[1] as int - 0x80, s[2] as int - 0x80);
    assert Second(s[0], s[1]) && Follows(s[2]);
    c := (a * 64 + b) * 64 + d;
    Digit(a * 64 + b, d);
    Digit(a, b);
    Sixes(c);
  }

  lemma FourBytes(s: string) returns (c: nat)
    requires |s| > 0 && Leads(s) == 4
    ensures Scalar(c) && s[..4] == Encoded(c)
  {
    var (a, b, d, e) := (s[0] as int - 0xF0, s[1] as int - 0x80, s[2] as int - 0x80, s[3] as int - 0x80);
    assert Second(s[0], s[1]) && Follows(s[2]) && Follows(s[3]);
    c := ((a * 64 + b) * 64 + d) * 64 + e;
    Digit((a * 64 + b) * 64 + d, e);
    Digit(a * 64 + b, d);
    Digit(a, b);
    Sixes(c);
    Sixes(c / 64);
  }

  lemma {:induction false} EncodedIsWellFormed(cs: seq<nat>)
    requires Scalars(cs)
    ensures WellFormed(EncodedAll(cs))
  {
    if |cs| > 0 {
      EncodedIsWellFormed(cs[1..]);
      EncodedLeads(cs[0], EncodedAll(cs[1..]));
      hide Leads, Encoded;
      assert EncodedAll(cs)[|Encoded(cs[0])|..] == EncodedAll(cs[1..]);
    }
  }

  lemma {:induction false} WellFormedIsEncoded(s: string) returns (cs: seq<nat>)
    requires WellFormed(s)
    ensures Scalars(cs) && s == EncodedAll(cs)
    decreases |s|
  {
    hide Leads, Encoded;
    if |s| == 0 {
      cs := [];
    } else {
      var n := Leads(s);
      var c := LeadsEncoded(s);
      var rest := WellFormedIsEncoded(s[n..]);
      cs := [c] + rest;
      assert cs[1..] == rest && s == s[..n] + s[n..];
    }
  }

  /** A text is well-formed exactly when it is some scalar values encoded one after the other. */
  lemma WellFormedExactly(s: string)
    ensures WellFormed(s) <==> exists cs: seq<nat> :: Scalars(cs) && s == EncodedAll(cs)
  {
    hide EncodedAll, WellFormed;
    if WellFormed(s) {
      var cs := WellFormedIsEncoded(s);
    }
    if cs: seq<nat> :| Scalars(cs) && s == EncodedAll(cs) {
      EncodedIsWellFormed(cs);
    }
  }

  /** Unicode's White_Space property. */
  predicate WhiteSpace(c: nat) {
    || 0x09 <= c <= 0x0D || c == 0x20 || c == 0x85 || c == 0xA0 || c == 0x1680 || 0x2000 <= c <= 0x200A
    || c == 0x2028 || c == 0x2029 || c == 0x202F || c == 0x205F || c == 0x3000
  }

  /** Trimming takes a character off exactly when its scalar value has the property. */
  lemma SpacesAreWhite(c: nat)
    requires Scalar(c)
    ensures IsSpace(Encoded(c)) <==> WhiteSpace(c)
  {
    Sixes(c);
    Sixes(c / 64);
  }
}
