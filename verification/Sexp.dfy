/**
 * S-expressions: the parser against the grammar it accepts. A text is its bytes, each written as the
 * character of its number, so nothing here depends on an encoding.
 */
module Sexp {

  datatype Sexp = Atom(text: string) | List(items: seq<Sexp>)

  datatype Fault = ExpectedOpen | EndInsideList | UnterminatedQuote

  /** What was read and what is left, or what was wrong. */
  datatype Parse<+T> = Parsed(value: T, rest: string) | Malformed(fault: Fault)

  /** ASCII white space only: a byte of a longer character is never one. */
  predicate IsWs(c: char) {
    c == ' ' || c == '\t' || c == '\n' || c == '\r' || c == '\U{000C}'
  }

  /** What ends a bare atom. */
  predicate IsBreak(c: char) {
    c == '(' || c == ')' || c == '"' || IsWs(c)
  }

  // ----- the parser, on the text still to be read -----

  function LineEnd(s: string): (rest: string)
    ensures |rest| <= |s|
    ensures s != [] && s[0] != '\n' ==> |rest| < |s|
  {
    if |s| == 0 || s[0] == '\n' then s else LineEnd(s[1..])
  }

  /** Past white space and `;` comments. */
  function Skipped(s: string): (rest: string)
    ensures |rest| <= |s|
    ensures rest != [] ==> !IsWs(rest[0]) && rest[0] != ';'
    decreases |s|
  {
    if |s| == 0 then s
    else if IsWs(s[0]) then Skipped(s[1..])
    else if s[0] == ';' then Skipped(LineEnd(s))
    else s
  }

  /** A quoted atom's text, its opening quote read. */
  function QuotedOf(s: string, out: string): (p: Parse<Sexp>)
    ensures p.Parsed? ==> |p.rest| < |s|
    decreases |s|
  {
    if |s| == 0 then Malformed(UnterminatedQuote)
    else if s[0] == '"' then Parsed(Atom(out), s[1..])
    else if s[0] == '\\' then
      if |s| == 1 then Malformed(UnterminatedQuote) else QuotedOf(s[2..], out + [s[1]])
    else QuotedOf(s[1..], out + [s[0]])
  }

  function BareLength(s: string): (n: nat)
    ensures n <= |s| && (n < |s| ==> IsBreak(s[n]))
    ensures forall k :: 0 <= k < n ==> !IsBreak(s[k])
  {
    if |s| == 0 || IsBreak(s[0]) then 0 else 1 + BareLength(s[1..])
  }

  function ListOf(s: string): (p: Parse<Sexp>)
    ensures p.Parsed? ==> |p.rest| < |s|
    decreases |s|, 0
  {
    var t := Skipped(s);
    if |t| == 0 || t[0] != '(' then Malformed(ExpectedOpen) else ItemsOf(t[1..], [])
  }

  /** One item, by its first byte. */
  function ItemOf(t: string): (p: Parse<Sexp>)
    requires |t| > 0 && t[0] != ')' && !IsWs(t[0])
    ensures p.Parsed? ==> |p.rest| < |t|
    decreases |t|, 1
  {
    if t[0] == '(' then ListOf(t)
    else if t[0] == '"' then QuotedOf(t[1..], [])
    else Parsed(Atom(t[..BareLength(t)]), t[BareLength(t)..])
  }

  /** The rest of a list whose first items are read. */
  function ItemsOf(s: string, items: seq<Sexp>): (p: Parse<Sexp>)
    ensures p.Parsed? ==> |p.rest| < |s|
    decreases |s|, 2
  {
    var t := Skipped(s);
    if |t| == 0 then Malformed(EndInsideList)
    else if t[0] == ')' then Parsed(List(items), t[1..])
    else
      match ItemOf(t)
      case Malformed(fault) => Malformed(fault)
      case Parsed(tree, rest) => ItemsOf(rest, items + [tree])
  }

  // ----- the parser itself, advancing a position in the bytes -----

  method SkipWs(bytes: string, start: nat) returns (pos: nat)
    requires start <= |bytes|
    ensures start <= pos <= |bytes| && bytes[pos..] == Skipped(bytes[start..])
  {
    pos := start;
    while true
      invariant start <= pos <= |bytes| && Skipped(bytes[pos..]) == Skipped(bytes[start..])
      decreases |bytes| - pos
    {
      while pos < |bytes| && IsWs(bytes[pos])
        invariant start <= pos <= |bytes| && Skipped(bytes[pos..]) == Skipped(bytes[start..])
      {
        assert bytes[pos..][1..] == bytes[pos + 1..];
        pos := pos + 1;
      }
      if pos < |bytes| && bytes[pos] == ';' {
        ghost var comment := pos;
        while pos < |bytes| && bytes[pos] != '\n'
          invariant comment <= pos <= |bytes| && LineEnd(bytes[pos..]) == LineEnd(bytes[comment..])
          invariant pos == comment ==> pos < |bytes| && bytes[pos] == ';'
        {
          assert bytes[pos..][1..] == bytes[pos + 1..];
          pos := pos + 1;
        }
        assert Skipped(bytes[comment..]) == Skipped(LineEnd(bytes[comment..]));
      } else {
        return;
      }
    }
  }

  method ParseQuoted(bytes: string, start: nat) returns (p: Parse<Sexp>, pos: nat)
    requires start < |bytes|
    ensures start < pos <= |bytes| && p == QuotedOf(bytes[start + 1..], []) && (p.Parsed? ==> p.rest == bytes[pos..])
  {
    pos := start + 1;
    var out := "";
    while pos < |bytes|
      invariant start < pos <= |bytes|
      invariant QuotedOf(bytes[pos..], out) == QuotedOf(bytes[start + 1..], [])
    {
      var b := bytes[pos];
      assert bytes[pos..][1..] == bytes[pos + 1..];
      if b == '"' {
        pos := pos + 1;
        return Parsed(Atom(out), bytes[pos..]), pos;
      } else if b == '\\' {
        assert pos + 1 < |bytes| ==> bytes[pos..][2..] == bytes[pos + 2..];
        pos := pos + 1;
        if pos < |bytes| {
          out := out + [bytes[pos]];
          pos := pos + 1;
        }
      } else {
        out := out + [b];
        pos := pos + 1;
      }
    }
    p := Malformed(UnterminatedQuote);
  }

  method ParseBare(bytes: string, start: nat) returns (atom: Sexp, pos: nat)
    requires start <= |bytes|
    ensures start <= pos <= |bytes| && pos - start == BareLength(bytes[start..]) && atom == Atom(bytes[start..pos])
  {
    pos := start;
    while pos < |bytes|
      invariant start <= pos <= |bytes| && BareLength(bytes[start..]) == pos - start + BareLength(bytes[pos..])
    {
      if IsBreak(bytes[pos]) {
        break;
      }
      assert bytes[pos..][1..] == bytes[pos + 1..];
      pos := pos + 1;
    }
    atom := Atom(bytes[start..pos]);
  }

  method ParseList(bytes: string, start: nat) returns (p: Parse<Sexp>, pos: nat)
    requires start <= |bytes|
    ensures start <= pos <= |bytes| && p == ListOf(bytes[start..]) && (p.Parsed? ==> p.rest == bytes[pos..])
    decreases |bytes| - start
  {
    hide Skipped, QuotedOf, BareLength;
    pos := SkipWs(bytes, start);
    if pos >= |bytes| || bytes[pos] != '(' {
      return Malformed(ExpectedOpen), pos;
    }
    assert bytes[pos..][1..] == bytes[pos + 1..];
    pos := pos + 1;
    var items: seq<Sexp> := [];
    while true
      invariant start < pos <= |bytes| && ListOf(bytes[start..]) == ItemsOf(bytes[pos..], items)
      decreases |bytes| - pos
    {
      ghost var here := pos;
      pos := SkipWs(bytes, pos);
      if pos == |bytes| {
        return Malformed(EndInsideList), pos;
      }
      assert bytes[pos..][1..] == bytes[pos + 1..];
      if bytes[pos] == ')' {
        return Parsed(List(items), bytes[pos + 1..]), pos + 1;
      }
      var item;
      if bytes[pos] == '(' {
        item, pos := ParseList(bytes, pos);
      } else if bytes[pos] == '"' {
        item, pos := ParseQuoted(bytes, pos);
      } else {
        var atom;
        ghost var from := pos;
        atom, pos := ParseBare(bytes, pos);
        item := Parsed(atom, bytes[pos..]);
        assert bytes[from..][..pos - from] == bytes[from..pos] && bytes[from..][pos - from..] == bytes[pos..];
      }
      if item.Malformed? {
        return item, pos;
      }
      items := items + [item.value];
    }
  }

  /** One top-level s-expression from the input; what follows it is not looked at. */
  method ParseSexp(input: string) returns (p: Parse<Sexp>)
    ensures p == ListOf(input)
  {
    assert input[0..] == input;
    var pos;
    p, pos := ParseList(input, 0);
  }
}
