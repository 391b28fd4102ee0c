/** The texts of s-expressions: every legal way to write a list, and that the parser reads exactly these. */
module SexpText {
  import opened Sexp

  // ----- the grammar, as documents with their layout -----

  /** A byte inside quotes, escaped or not. */
  datatype Quoted = Quoted(byte: char, escaped: bool)

  datatype Doc = BareAtom(text: string) | QuotedAtom(bytes: seq<Quoted>) | Listed(items: Docs)

  /** A list's items, each after a gap, and the gap before the closing parenthesis. */
  datatype Docs = Close(gap: string) | Item(gap: string, doc: Doc, more: Docs)

  /** ASCII white space: tab, line feed, form feed, carriage return and space, by their bytes. */
  predicate Spacing(c: char) {
    c as int == 9 || c as int == 10 || c as int == 12 || c as int == 13 || c as int == 32
  }

  /** What cannot stand in a bare atom: white space, parentheses and quotes. */
  predicate Delimits(c: char) {
    Spacing(c) || c as int == 34 || c as int == 40 || c as int == 41
  }

  /** White space and `;` comments, every comment ended by its newline; `inComment` says where the gap starts. */
  predicate IsGapFrom(gap: string, inComment: bool) {
    if |gap| == 0 then !inComment
    else if inComment then IsGapFrom(gap[1..], gap[0] != '\n')
    else if Spacing(gap[0]) then IsGapFrom(gap[1..], false)
    else gap[0] == ';' && IsGapFrom(gap[1..], true)
  }

  predicate IsGap(gap: string) {
    IsGapFrom(gap, false)
  }

  predicate IsBare(text: string) {
    |text| > 0 && text[0] != ';' && forall k :: 0 <= k < |text| ==> !Delimits(text[k])
  }

  /** Only quotes and backslashes must be escaped; anything may be. */
  predicate IsQuotable(bytes: seq<Quoted>) {
    forall k :: 0 <= k < |bytes| ==> bytes[k].escaped || (bytes[k].byte != '"' && bytes[k].byte != '\\')
  }

  predicate Legal(doc: Doc) {
    match doc
    case BareAtom(text) => IsBare(text)
    case QuotedAtom(bytes) => IsQuotable(bytes)
    case Listed(items) => LegalAll(items)
  }

  /** A bare atom runs to the next break, so one must follow it. */
  predicate LegalAll(docs: Docs) {
    match docs
    case Close(gap) => IsGap(gap)
    case Item(gap, doc, more) =>
      IsGap(gap) && Legal(doc) && LegalAll(more) && (doc.BareAtom? ==> Delimits(TextAll(more)[0]))
  }

  function QuotedText(bytes: seq<Quoted>): string {
    if |bytes| == 0 then ""
    else (if bytes[0].escaped then ['\\', bytes[0].byte] else [bytes[0].byte]) + QuotedText(bytes[1..])
  }

  function QuotedValue(bytes: seq<Quoted>): string {
    if |bytes| == 0 then "" else [bytes[0].byte] + QuotedValue(bytes[1..])
  }

  function Text(doc: Doc): string {
    match doc
    case BareAtom(text) => text
    case QuotedAtom(bytes) => "\"" + QuotedText(bytes) + "\""
    case Listed(items) => "(" + TextAll(items)
  }

  function TextAll(docs: Docs): (s: string)
    ensures |s| > 0
  {
    match docs
    case Close(gap) => gap + ")"
    case Item(gap, doc, more) => gap + Text(doc) + TextAll(more)
  }

  /** The tree a document writes. */
  function Tree(doc: Doc): Sexp {
    match doc
    case BareAtom(text) => Atom(text)
    case QuotedAtom(bytes) => Atom(QuotedValue(bytes))
    case Listed(items) => List(Trees(items))
  }

  function Trees(docs: Docs): seq<Sexp> {
    match docs
    case Close(_) => []
    case Item(_, doc, more) => [Tree(doc)] + Trees(more)
  }

  // ----- every document is read as its tree -----

  lemma {:induction false} LineEndFrom(gap: string, after: string)
    requires IsGapFrom(gap, true)
    ensures exists k ::
              0 <= k < |gap| && gap[k] == '\n' && LineEnd(gap + after) == gap[k..] + after && IsGapFrom(gap[k..], false)
  {
    assert (gap + after)[1..] == gap[1..] + after;
    if gap[0] == '\n' {
      assert gap[0..] == gap;
    } else {
      LineEndFrom(gap[1..], after);
      var k :| 0 <= k < |gap[1..]| && gap[1..][k] == '\n' && LineEnd(gap[1..] + after) == gap[1..][k..] + after &&
               IsGapFrom(gap[1..][k..], false);
      assert gap[1..][k..] == gap[k + 1..];
    }
  }

  /** A gap is skipped whole, and nothing after it. */
  lemma {:induction false} GapSkipped(gap: string, after: string)
    requires IsGap(gap) && after != [] && !IsWs(after[0]) && after[0] != ';'
    ensures Skipped(gap + after) == after
    decreases |gap|
  {
    if |gap| == 0 {
      assert gap + after == after;
    } else if IsWs(gap[0]) {
      assert (gap + after)[1..] == gap[1..] + after;
      GapSkipped(gap[1..], after);
    } else {
      LineEndFrom(gap[1..], after);
      assert (gap + after)[1..] == gap[1..] + after;
      var k :| 0 <= k < |gap[1..]| && gap[1..][k] == '\n' && LineEnd(gap[1..] + after) == gap[1..][k..] + after &&
               IsGapFrom(gap[1..][k..], false);
      GapSkipped(gap[1..][k..], after);
    }
  }

  lemma {:induction false} QuotedRead(bytes: seq<Quoted>, after: string, out: string)
    requires IsQuotable(bytes)
    ensures QuotedOf(QuotedText(bytes) + "\"" + after, out) == Parsed(Atom(out + QuotedValue(bytes)), after)
  {
    var s := QuotedText(bytes) + "\"" + after;
    if |bytes| == 0 {
      assert s == "\"" + after && s[1..] == after && out + "" == out;
    } else {
      var b := bytes[0];
      QuotedRead(bytes[1..], after, out + [b.byte]);
      var rest := QuotedText(bytes[1..]) + "\"" + after;
      assert s == (if b.escaped then ['\\', b.byte] else [b.byte]) + rest;
      assert s[if b.escaped then 2 else 1..] == rest;
      assert out + [b.byte] + QuotedValue(bytes[1..]) == out + QuotedValue(bytes);
    }
  }

  lemma {:induction false} BareRead(text: string, after: string)
    requires forall k :: 0 <= k < |text| ==> !IsBreak(text[k])
    requires after != [] && IsBreak(after[0])
    ensures BareLength(text + after) == |text|
  {
    if |text| == 0 {
      assert text + after == after;
    } else {
      assert (text + after)[1..] == text[1..] + after;
      BareRead(text[1..], after);
    }
  }

  /** A document's first byte shows which kind it is, and is neither white space nor a comment's. */
  lemma FirstByte(doc: Doc)
    requires Legal(doc)
    ensures var s := Text(doc);
            && s != [] && !IsWs(s[0]) && s[0] != ';' && s[0] != ')'
            && (s[0] == '(' <==> doc.Listed?) && (s[0] == '"' <==> doc.QuotedAtom?)
  {
  }

  lemma {:induction false} ItemsRead(docs: Docs, after: string, items: seq<Sexp>)
    requires LegalAll(docs)
    ensures ItemsOf(TextAll(docs) + after, items) == Parsed(List(items + Trees(docs)), after)
    decreases docs, 0
  {
    match docs {
      case Close(gap) =>
        assert gap + ")" + after == gap + (")" + after);
        GapSkipped(gap, ")" + after);
        assert items + [] == items;
      case Item(gap, doc, more) =>
        FirstByte(doc);
        var rest := TextAll(more) + after;
        assert TextAll(docs) + after == gap + (Text(doc) + rest);
        GapSkipped(gap, Text(doc) + rest);
        ItemRead(doc, rest);
        ItemsRead(more, after, items + [Tree(doc)]);
        assert items + [Tree(doc)] + Trees(more) == items + Trees(docs);
    }
  }

  lemma {:induction false} ItemRead(doc: Doc, after: string)
    requires Legal(doc) && (doc.BareAtom? ==> after != [] && IsBreak(after[0]))
    ensures Text(doc) != [] && ItemOf(Text(doc) + after) == Parsed(Tree(doc), after)
    decreases doc, 1
  {
    FirstByte(doc);
    var t := Text(doc) + after;
    match doc {
      case BareAtom(text) =>
        BareRead(text, after);
        assert t[..|text|] == text && t[|text|..] == after;
      case QuotedAtom(bytes) =>
        QuotedRead(bytes, after, []);
        assert t[1..] == QuotedText(bytes) + "\"" + after;
        assert [] + QuotedValue(bytes) == QuotedValue(bytes);
      case Listed(docs) =>
        assert t[1..] == TextAll(docs) + after;
        ItemsRead(docs, after, []);
        assert [] + Trees(docs) == Trees(docs);
    }
  }

  // ----- and nothing else is read -----

  lemma {:induction false} CommentFrom(comment: string, gap: string)
    requires forall k :: 0 <= k < |comment| ==> comment[k] != '\n'
    requires gap != [] && gap[0] == '\n' && IsGap(gap)
    ensures IsGapFrom(comment + gap, true)
  {
    if |comment| == 0 {
      assert comment + gap == gap;
    } else {
      assert (comment + gap)[1..] == comment[1..] + gap;
      CommentFrom(comment[1..], gap);
    }
  }

  lemma {:induction false} LineEndAt(s: string) returns (k: nat)
    ensures k <= |s| && LineEnd(s) == s[k..] && (k < |s| ==> s[k] == '\n')
    ensures forall j :: 0 <= j < k ==> s[j] != '\n'
  {
    if |s| == 0 || s[0] == '\n' {
      k := 0;
    } else {
      k := LineEndAt(s[1..]);
      k := k + 1;
    }
  }

  /** What is skipped before anything else is a gap. */
  lemma {:induction false} GapFound(s: string) returns (gap: string)
    requires Skipped(s) != []
    ensures IsGap(gap) && s == gap + Skipped(s)
    decreases |s|
  {
    if IsWs(s[0]) {
      gap := GapFound(s[1..]);
      assert ([s[0]] + gap)[1..] == gap;
      gap := [s[0]] + gap;
    } else if s[0] == ';' {
      var k := LineEndAt(s);
      gap := GapFound(s[k..]);
      assert gap != [] && gap[0] == s[k];
      CommentFrom(s[1..k], gap);
      assert (s[..k] + gap)[1..] == s[1..k] + gap;
      gap := s[..k] + gap;
    } else {
      gap := "";
    }
  }

  lemma {:induction false} QuotedFound(s: string, out: string) returns (bytes: seq<Quoted>)
    requires QuotedOf(s, out).Parsed?
    ensures IsQuotable(bytes) && s == QuotedText(bytes) + "\"" + QuotedOf(s, out).rest
    ensures QuotedOf(s, out).value == Atom(out + QuotedValue(bytes))
    decreases |s|
  {
    if s[0] == '"' {
      bytes := [];
      assert out + "" == out;
    } else {
      var escaped := s[0] == '\\';
      var b := if escaped then s[1] else s[0];
      var more := QuotedFound(s[if escaped then 2 else 1..], out + [b]);
      bytes := [Quoted(b, escaped)] + more;
      assert bytes[1..] == more;
      assert out + [b] + QuotedValue(more) == out + QuotedValue(bytes);
    }
  }

  lemma {:induction false} ItemFound(t: string) returns (doc: Doc)
    requires |t| > 0 && t[0] != ')' && !IsWs(t[0]) && t[0] != ';' && ItemOf(t).Parsed?
    ensures Legal(doc) && t == Text(doc) + ItemOf(t).rest && ItemOf(t).value == Tree(doc)
    ensures doc.BareAtom? && ItemOf(t).rest != [] ==> IsBreak(ItemOf(t).rest[0])
    decreases |t|, 1
  {
    if t[0] == '(' {
      var docs := ItemsFound(t[1..], []);
      doc := Listed(docs);
      assert [] + Trees(docs) == Trees(docs);
    } else if t[0] == '"' {
      var bytes := QuotedFound(t[1..], []);
      doc := QuotedAtom(bytes);
      assert [] + QuotedValue(bytes) == QuotedValue(bytes);
    } else {
      doc := BareAtom(t[..BareLength(t)]);
    }
  }

  lemma {:induction false} ItemsFound(s: string, items: seq<Sexp>) returns (docs: Docs)
    requires ItemsOf(s, items).Parsed?
    ensures LegalAll(docs) && s == TextAll(docs) + ItemsOf(s, items).rest
    ensures ItemsOf(s, items).value == List(items + Trees(docs))
    decreases |s|, 2
  {
    hide IsGapFrom, Skipped, ItemOf, Text, Tree;
    var gap := GapFound(s);
    var t := Skipped(s);
    if t[0] == ')' {
      docs := Close(gap);
      assert items + [] == items;
    } else {
      var doc := ItemFound(t);
      var rest := ItemOf(t).rest;
      var more := ItemsFound(rest, items + [Tree(doc)]);
      assert rest[0] == TextAll(more)[0];
      docs := Item(gap, doc, more);
      assert items + [Tree(doc)] + Trees(more) == items + Trees(docs);
    }
  }

  // ----- the parser is the grammar -----

  /** `s` begins, after a gap, with a document that writes `tree`, and `rest` follows it. */
  ghost predicate Writes(s: string, tree: Sexp, rest: string) {
    exists gap, items ::
      IsGap(gap) && LegalAll(items) && s == gap + Text(Listed(items)) + rest && tree == List(Trees(items))
  }

  lemma ParsedIsWritten(s: string)
    requires ListOf(s).Parsed?
    ensures Writes(s, ListOf(s).value, ListOf(s).rest)
  {
    hide IsGapFrom, LegalAll, TextAll, Trees, Skipped, ItemsOf;
    var gap := GapFound(s);
    var t := Skipped(s);
    var docs := ItemsFound(t[1..], []);
    assert [] + Trees(docs) == Trees(docs);
    assert s == gap + Text(Listed(docs)) + ListOf(s).rest;
  }

  lemma WrittenIsParsed(gap: string, items: Docs, rest: string)
    requires IsGap(gap) && LegalAll(items)
    ensures ListOf(gap + Text(Listed(items)) + rest) == Parsed(List(Trees(items)), rest)
  {
    hide IsGapFrom, LegalAll, TextAll, Trees, Skipped, ItemsOf;
    var t := Text(Listed(items)) + rest;
    assert gap + Text(Listed(items)) + rest == gap + t && t[1..] == TextAll(items) + rest;
    GapSkipped(gap, t);
    ItemsRead(items, rest, []);
    assert [] + Trees(items) == Trees(items);
  }

  /**
   * On every byte string the parser reads a tree exactly when the string begins with some legal writing of
   * it: whatever the gaps, the comments and the choice of bare or quoted, and nothing that is not one.
   */
  lemma ParsesExactly(s: string, tree: Sexp, rest: string)
    ensures ListOf(s) == Parsed(tree, rest) <==> Writes(s, tree, rest)
  {
    hide ListOf, IsGap, LegalAll, Text, Trees;
    if ListOf(s) == Parsed(tree, rest) {
      ParsedIsWritten(s);
    }
    if gap, items :| IsGap(gap) && LegalAll(items) && s == gap + Text(Listed(items)) + rest &&
                     tree == List(Trees(items)) {
      WrittenIsParsed(gap, items, rest);
    }
  }

  /** No text is a writing of two trees. */
  lemma WritesOnce(s: string, a: Sexp, restA: string, b: Sexp, restB: string)
    requires Writes(s, a, restA) && Writes(s, b, restB)
    ensures a == b && restA == restB
  {
    ParsesExactly(s, a, restA);
    ParsesExactly(s, b, restB);
  }

  // ----- a printer -----

  function Escaped(text: string): (bytes: seq<Quoted>)
    ensures IsQuotable(bytes)
  {
    if |text| == 0 then [] else [Quoted(text[0], text[0] == '"' || text[0] == '\\')] + Escaped(text[1..])
  }

  lemma {:induction false} EscapedValue(text: string)
    ensures QuotedValue(Escaped(text)) == text
  {
    if |text| > 0 {
      EscapedValue(text[1..]);
      assert Escaped(text)[1..] == Escaped(text[1..]);
    }
  }

  /**
   * A tree printed the plainest way: every atom quoted, its quotes and backslashes escaped, a space before each item.
   */
  function Printed(tree: Sexp): Doc
    decreases tree
  {
    match tree
    case Atom(text) => QuotedAtom(Escaped(text))
    case List(items) => Listed(PrintedAll(items))
  }

  function PrintedAll(items: seq<Sexp>): Docs
    decreases items
  {
    if |items| == 0 then Close("") else Item(" ", Printed(items[0]), PrintedAll(items[1..]))
  }

  lemma {:induction false} PrintedWrites(tree: Sexp)
    ensures Legal(Printed(tree)) && Tree(Printed(tree)) == tree && !Printed(tree).BareAtom?
    decreases tree
  {
    match tree {
      case Atom(text) => EscapedValue(text);
      case List(items) => PrintedAllWrites(items);
    }
  }

  lemma {:induction false} PrintedAllWrites(items: seq<Sexp>)
    ensures LegalAll(PrintedAll(items)) && Trees(PrintedAll(items)) == items
    decreases items
  {
    if |items| > 0 {
      assert IsGap(" ") by {
        assert " "[1..] == "";
      }
      PrintedWrites(items[0]);
      PrintedAllWrites(items[1..]);
      assert items == [items[0]] + items[1..];
    }
  }

  /** The parser inverts the printer on every list-rooted tree, whatever bytes its atoms hold. */
  lemma ParserInvertsPrinter(tree: Sexp, after: string)
    requires tree.List?
    ensures ListOf(Text(Printed(tree)) + after) == Parsed(tree, after)
  {
    PrintedWrites(tree);
    var items := Printed(tree).items;
    assert Text(Printed(tree)) + after == "" + Text(Listed(items)) + after;
    assert IsGap("");
    ParsesExactly(Text(Printed(tree)) + after, tree, after);
  }
}
