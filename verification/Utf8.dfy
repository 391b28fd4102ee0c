/**
 * Well-formed UTF-8 (The Unicode Standard, table 3-7), on texts written as their bytes. An ASCII byte is always a
 * whole character, so nothing the parser cuts at or drops ever splits a longer one.
 */
module Utf8 {
  import opened Sexp

  predicate Between(c: char, low: int, high: int) {
    low <= c as int <= high
  }

  predicate Ascii(c: char) {
    Between(c, 0, 0x7F)
  }

  predicate Follows(c: char) {
    Between(c, 0x80, 0xBF)
  }

  /** What may follow a lead byte at once: neither an overlong form, nor a surrogate, nor past the last code point. */
  predicate Second(lead: char, c: char) {
    match lead as int
    case 0xE0 => Between(c, 0xA0, 0xBF)
    case 0xED => Between(c, 0x80, 0x9F)
    case 0xF0 => Between(c, 0x90, 0xBF)
    case 0xF4 => Between(c, 0x80, 0x8F)
    case _ => Follows(c)
  }

  function LengthBy(lead: char): (n: nat)
    ensures n == 1 <==> Ascii(lead)
  {
    if Ascii(lead) then 1
    else if Between(lead, 0xC2, 0xDF) then 2
    else if Between(lead, 0xE0, 0xEF) then 3
    else if Between(lead, 0xF0, 0xF4) then 4
    else 0
  }

  /** The length of the character a text begins with; zero where it begins with none. */
  function Leads(s: string): (n: nat)
    requires |s| > 0
    ensures n <= |s|
  {
    var n := LengthBy(s[0]);
    if n <= |s| && (n > 1 ==> Second(s[0], s[1])) && forall k :: 2 <= k < n ==> Follows(s[k]) then n else 0
  }

  predicate WellFormed(s: string) {
    |s| == 0 || (Leads(s) > 0 && WellFormed(s[Leads(s)..]))
  }

  lemma {:induction false} Joins(a: string, b: string)
    requires WellFormed(a) && WellFormed(b)
    ensures WellFormed(a + b)
    decreases |a|
  {
    if |a| == 0 {
      assert a + b == b;
    } else {
      var n := Leads(a);
      assert Leads(a + b) == n;
      assert (a + b)[n..] == a[n..] + b;
      Joins(a[n..], b);
    }
  }

  lemma LeadsWithin(a: string, more: string)
    requires |a| > 0 && 0 < Leads(a + more) <= |a|
    ensures Leads(a) == Leads(a + more)
  {
    var s, n := a + more, Leads(a + more);
    assert forall k :: 0 <= k < n ==> s[k] == a[k];
  }

  lemma LeadsStop(a: string, c: char, more: string)
    requires |a| > 0 && Ascii(c) && Leads(a + ([c] + more)) > 0
    ensures Leads(a + ([c] + more)) <= |a|
  {
    var s := a + ([c] + more);
    assert s[|a|] == c;
  }

  /** An ASCII byte stands between whole characters, and is one itself. */
  lemma {:induction false} Splits(a: string, c: char, b: string)
    requires WellFormed(a + ([c] + b)) && Ascii(c)
    ensures WellFormed(a) && WellFormed(b) && WellFormed([c] + b)
    decreases |a|
  {
    var s := a + ([c] + b);
    if |a| == 0 {
      assert s == [c] + b && ([c] + b)[1..] == b;
    } else {
      var n := Leads(s);
      LeadsStop(a, c, b);
      LeadsWithin(a, [c] + b);
      hide Leads, Ascii;
      assert s[n..] == a[n..] + ([c] + b);
      Splits(a[n..], c, b);
    }
  }

  lemma SplitsAt(s: string, k: nat)
    requires WellFormed(s) && k <= |s| && (k < |s| ==> Ascii(s[k]))
    ensures WellFormed(s[..k]) && WellFormed(s[k..])
  {
    hide Ascii, WellFormed;
    if k < |s| {
      assert s[k..] == [s[k]] + s[k + 1..];
      assert s == s[..k] + ([s[k]] + s[k + 1..]);
      Splits(s[..k], s[k], s[k + 1..]);
    } else {
      assert s[..k] == s && s[k..] == [];
      NothingWellFormed();
    }
  }

  lemma NothingWellFormed()
    ensures WellFormed([])
  {
  }

  lemma DropsAscii(s: string)
    requires WellFormed(s) && |s| > 0 && Ascii(s[0])
    ensures WellFormed(s[1..])
  {
  }

  // ----- over the parser -----

  /** Every atom of a tree is well-formed. */
  ghost predicate Legible(s: Sexp) {
    match s
    case Atom(text) => WellFormed(text)
    case List(items) => forall k :: 0 <= k < |items| ==> Legible(items[k])
  }

  ghost predicate Clean(p: Parse<Sexp>) {
    p.Parsed? ==> Legible(p.value) && WellFormed(p.rest)
  }

  lemma LineEndsClean(s: string)
    requires WellFormed(s)
    ensures WellFormed(LineEnd(s))
  {
    var k := LineLength(s);
    SplitsAt(s, k);
  }

  /** How far the line goes. */
  lemma {:induction false} LineLength(s: string) returns (k: nat)
    ensures k <= |s| && LineEnd(s) == s[k..] && (k < |s| ==> Ascii(s[k]))
  {
    if |s| == 0 || s[0] == '\n' {
      k := 0;
    } else {
      k := LineLength(s[1..]);
      assert s[1..][k..] == s[k + 1..];
      k := k + 1;
    }
  }

  lemma {:induction false} SkippedClean(s: string)
    requires WellFormed(s)
    ensures WellFormed(Skipped(s))
    decreases |s|
  {
    if |s| > 0 && IsWs(s[0]) {
      DropsAscii(s);
      SkippedClean(s[1..]);
    } else if |s| > 0 && s[0] == ';' {
      LineEndsClean(s);
      SkippedClean(LineEnd(s));
    }
  }

  /** Bytes move one by one into the atom, so what is well-formed on the way is the two together. */
  lemma {:induction false} QuotedClean(s: string, out: string)
    requires WellFormed(out + s)
    ensures Clean(QuotedOf(s, out))
    decreases |s|
  {
    if |s| > 0 {
      assert out + s == out + ([s[0]] + s[1..]) && out + s == (out + [s[0]]) + s[1..];
      if s[0] == '"' {
        Splits(out, s[0], s[1..]);
      } else if s[0] == '\\' {
        Splits(out, s[0], s[1..]);
        Joins(out, s[1..]);
        if |s| > 1 {
          assert out + s[1..] == (out + [s[1]]) + s[2..];
          QuotedClean(s[2..], out + [s[1]]);
        }
      } else {
        QuotedClean(s[1..], out + [s[0]]);
      }
    }
  }

  lemma {:induction false} ListClean(s: string)
    requires WellFormed(s)
    ensures Clean(ListOf(s))
    decreases |s|, 0
  {
    SkippedClean(s);
    var t := Skipped(s);
    if |t| > 0 && t[0] == '(' {
      DropsAscii(t);
      ItemsClean(t[1..], []);
    }
  }

  lemma {:induction false} ItemClean(t: string)
    requires WellFormed(t) && |t| > 0 && t[0] != ')' && !IsWs(t[0])
    ensures Clean(ItemOf(t))
    decreases |t|, 1
  {
    if t[0] == '(' {
      ListClean(t);
    } else if t[0] == '"' {
      DropsAscii(t);
      assert [] + t[1..] == t[1..];
      QuotedClean(t[1..], []);
    } else {
      SplitsAt(t, BareLength(t));
    }
  }

  lemma {:induction false} ItemsClean(s: string, items: seq<Sexp>)
    requires WellFormed(s) && forall k :: 0 <= k < |items| ==> Legible(items[k])
    ensures Clean(ItemsOf(s, items))
    decreases |s|, 2
  {
    hide QuotedOf, BareLength, WellFormed;
    SkippedClean(s);
    var t := Skipped(s);
    if |t| > 0 && t[0] == ')' {
      DropsAscii(t);
    } else if |t| > 0 {
      ItemClean(t);
      var item := ItemOf(t);
      if item.Parsed? {
        ItemsClean(item.rest, items + [item.value]);
      }
    }
  }

  /**
   * Every atom read from a well-formed text is well-formed, its escapes taken out: decoding it replaces nothing,
   * and no character of it is lost or split.
   */
  lemma AtomsStayText(s: string)
    requires WellFormed(s)
    ensures ListOf(s).Parsed? ==> Legible(ListOf(s).value)
  {
    ListClean(s);
  }
}
