/** Trimming: the characters of Unicode's White_Space property, in their UTF-8 bytes, off both ends of a text. */
module Spaces {
  import opened Utf8

  /** U+2000 to U+200A, U+2028, U+2029, U+202F, U+205F, U+1680 and U+3000. */
  predicate WideSpace(a: char, b: char, c: char) {
    match (a as int, b as int)
    case (0xE1, 0x9A) => c as int == 0x80
    case (0xE2, 0x80) => Between(c, 0x80, 0x8A) || Between(c, 0xA8, 0xA9) || c as int == 0xAF
    case (0xE2, 0x81) => c as int == 0x9F
    case (0xE3, 0x80) => c as int == 0x80
    case _ => false
  }

  /** The length of the white space character a text begins with; zero where it begins with none. */
  function SpaceLed(s: string): (n: nat)
    ensures n <= |s| && n <= 3
  {
    if |s| >= 1 && (Between(s[0], 0x09, 0x0D) || s[0] == ' ') then 1
    else if |s| >= 2 && s[0] as int == 0xC2 && (s[1] as int == 0x85 || s[1] as int == 0xA0) then 2
    else if |s| >= 3 && WideSpace(s[0], s[1], s[2]) then 3
    else 0
  }

  predicate IsSpace(s: string) {
    |s| > 0 && SpaceLed(s) == |s|
  }

  function SpaceEnded(s: string): (n: nat)
    ensures n <= |s| && (n > 0 ==> IsSpace(s[|s| - n..]))
  {
    if |s| >= 1 && IsSpace(s[|s| - 1..]) then 1
    else if |s| >= 2 && IsSpace(s[|s| - 2..]) then 2
    else if |s| >= 3 && IsSpace(s[|s| - 3..]) then 3
    else 0
  }

  function TrimStart(s: string): (t: string)
    ensures |t| <= |s| && t == s[|s| - |t|..] && SpaceLed(t) == 0
    decreases |s|
  {
    if SpaceLed(s) == 0 then s else TrimStart(s[SpaceLed(s)..])
  }

  function TrimEnd(s: string): (t: string)
    ensures |t| <= |s| && t == s[..|t|] && SpaceEnded(t) == 0
    decreases |s|
  {
    if SpaceEnded(s) == 0 then s else TrimEnd(s[..|s| - SpaceEnded(s)])
  }

  function Trim(s: string): string {
    TrimEnd(TrimStart(s))
  }

  /** Neither end is a white space character. */
  predicate Bare(s: string) {
    SpaceLed(s) == 0 && SpaceEnded(s) == 0
  }

  /** White space characters and nothing else. */
  predicate Blank(s: string)
    decreases |s|
  {
    |s| == 0 || (SpaceLed(s) > 0 && Blank(s[SpaceLed(s)..]))
  }

  lemma {:induction false} BlankJoins(a: string, b: string)
    requires Blank(a) && Blank(b)
    ensures Blank(a + b)
    decreases |a|
  {
    if |a| == 0 {
      assert a + b == b;
    } else {
      var n := SpaceLed(a);
      LedWithin(a, b);
      assert (a + b)[n..] == a[n..] + b;
      BlankJoins(a[n..], b);
    }
  }

  lemma LedWithin(a: string, more: string)
    ensures SpaceLed(a) > 0 ==> SpaceLed(a + more) == SpaceLed(a)
  {
  }

  lemma {:induction false} StartTrimmed(s: string)
    ensures Blank(s[..|s| - |TrimStart(s)|])
    decreases |s|
  {
    NothingBlank();
    hide SpaceLed, Blank;
    var n := SpaceLed(s);
    if n > 0 {
      var rest := s[n..];
      var off := rest[..|rest| - |TrimStart(rest)|];
      assert s == s[..n] + s[n..];
      StartTrimmed(rest);
      assert s[..|s| - |TrimStart(s)|] == s[..n] + off;
      SpaceIsBlank(s[..n], s[n..]);
      BlankJoins(s[..n], off);
    }
  }

  lemma NothingBlank()
    ensures Blank([])
  {
  }

  lemma SpaceIsBlank(a: string, more: string)
    requires |a| > 0 && SpaceLed(a + more) == |a|
    ensures Blank(a)
  {
    assert forall k :: 0 <= k < |a| ==> (a + more)[k] == a[k];
    assert SpaceLed(a) == |a| && a[|a|..] == [];
  }

  lemma {:induction false} EndTrimmed(s: string)
    ensures Blank(s[|TrimEnd(s)|..])
    decreases |s|
  {
    hide SpaceLed, Blank, SpaceEnded;
    NothingBlank();
    var n := SpaceEnded(s);
    if n > 0 {
      var rest, last := s[..|s| - n], s[|s| - n..];
      EndTrimmed(rest);
      assert s[|TrimEnd(s)|..] == rest[|TrimEnd(rest)|..] + last;
      assert last + [] == last;
      SpaceIsBlank(last, []);
      BlankJoins(rest[|TrimEnd(rest)|..], last);
    } else {
      assert s[|TrimEnd(s)|..] == [];
    }
  }

  /** Trimming takes white space off the two ends, all of it and nothing else. */
  lemma TrimTakesSpaces(s: string) returns (before: string, after: string)
    ensures s == before + Trim(s) + after && Blank(before) && Blank(after) && Bare(Trim(s))
  {
    hide SpaceLed, Blank, SpaceEnded, TrimStart, TrimEnd;
    var t := TrimStart(s);
    var kept := TrimEnd(t);
    before, after := s[..|s| - |t|], t[|kept|..];
    StartTrimmed(s);
    EndTrimmed(t);
    LedWithin(kept, after);
    assert t == kept + after;
    assert s == before + t;
  }

  /** A text is what is left of some trimming exactly when neither end is white space. */
  lemma BareIsTrimmed(s: string)
    ensures Bare(s) <==> Trim(s) == s
  {
    hide SpaceLed, SpaceEnded;
    var before, after := TrimTakesSpaces(s);
  }

  lemma TrimmedIsTrimmed(s: string)
    ensures Trim(Trim(s)) == Trim(s)
  {
    hide Bare, Trim;
    var before, after := TrimTakesSpaces(s);
    BareIsTrimmed(Trim(s));
  }
}
