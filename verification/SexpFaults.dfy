/**
 * What each refusal of the parser means: no list there at all, a list the closing parentheses are missing from, or a
 * quotation nothing but a quote would end.
 */
module SexpFaults {
  import opened Sexp

  function Closers(n: nat): (s: string)
    ensures |s| == n
  {
    if n == 0 then "" else ")" + Closers(n - 1)
  }

  /** What would close a text left `n` lists deep; the newline ends a comment or an atom it may stop in. */
  function Closing(n: nat): (s: string)
    ensures |s| == n + 1 && s[0] == '\n'
  {
    "\n" + Closers(n)
  }

  lemma {:induction false} ClosersPlain(n: nat)
    ensures forall k :: 0 <= k < n ==> Closers(n)[k] == ')'
  {
    if n > 0 {
      ClosersPlain(n - 1);
    }
  }

  // ----- what more text changes of what is read -----

  lemma {:induction false} LineEndMore(s: string, x: string)
    requires |x| > 0 && x[0] == '\n'
    ensures LineEnd(s + x) == LineEnd(s) + x
  {
    if |s| == 0 {
      assert s + x == x;
    } else if s[0] != '\n' {
      assert (s + x)[1..] == s[1..] + x;
      LineEndMore(s[1..], x);
    }
  }

  lemma {:induction false} SkippedMore(s: string, x: string)
    requires |x| > 0 && x[0] == '\n'
    ensures Skipped(s + x) == if Skipped(s) == [] then Skipped(x) else Skipped(s) + x
    decreases |s|
  {
    if |s| == 0 {
      assert s + x == x;
    } else if IsWs(s[0]) {
      assert (s + x)[1..] == s[1..] + x;
      SkippedMore(s[1..], x);
    } else if s[0] == ';' {
      LineEndMore(s, x);
      SkippedMore(LineEnd(s), x);
    }
  }

  lemma NewlineSkipped(t: string)
    ensures Skipped("\n" + t) == Skipped(t)
  {
    assert ("\n" + t)[1..] == t;
  }

  /** No quote and no backslash. */
  predicate Plain(x: string) {
    forall k :: 0 <= k < |x| ==> x[k] != '"' && x[k] != '\\'
  }

  lemma {:induction false} PlainEndsNothing(x: string, out: string)
    requires Plain(x)
    ensures QuotedOf(x, out) == Malformed(UnterminatedQuote)
    decreases |x|
  {
    if |x| > 0 {
      PlainEndsNothing(x[1..], out + [x[0]]);
    }
  }

  lemma {:induction false} QuotedMore(s: string, x: string, out: string)
    requires Plain(x) && |x| > 0
    ensures QuotedOf(s + x, out) == match QuotedOf(s, out)
                                    case Parsed(v, rest) => Parsed(v, rest + x)
                                    case Malformed(fault) => Malformed(UnterminatedQuote)
    decreases |s|
  {
    if |s| == 0 {
      assert s + x == x;
      PlainEndsNothing(x, out);
    } else if s[0] == '"' {
      assert (s + x)[1..] == s[1..] + x;
    } else if s[0] == '\\' {
      if |s| == 1 {
        assert (s + x)[2..] == x[1..];
        PlainEndsNothing(x[1..], out + [x[0]]);
      } else {
        assert (s + x)[2..] == s[2..] + x;
        QuotedMore(s[2..], x, out + [s[1]]);
      }
    } else {
      assert (s + x)[1..] == s[1..] + x;
      QuotedMore(s[1..], x, out + [s[0]]);
    }
  }

  lemma {:induction false} QuotedFault(s: string, out: string)
    ensures QuotedOf(s, out).Malformed? ==> QuotedOf(s, out).fault == UnterminatedQuote
    decreases |s|
  {
    if |s| > 0 && s[0] == '\\' && |s| > 1 {
      QuotedFault(s[2..], out + [s[1]]);
    } else if |s| > 0 && s[0] != '"' && s[0] != '\\' {
      QuotedFault(s[1..], out + [s[0]]);
    }
  }

  lemma {:induction false} BareMore(s: string, x: string)
    requires |x| > 0 && x[0] == '\n'
    ensures BareLength(s + x) == BareLength(s)
  {
    if |s| == 0 {
      assert s + x == x;
    } else if !IsBreak(s[0]) {
      assert (s + x)[1..] == s[1..] + x;
      BareMore(s[1..], x);
    }
  }

  // ----- what closing parentheses make of a text -----

  /**
   * What `n` closing parentheses make of an outcome `p`: nothing of what is read already, nothing of a quotation left
   * open, and of a list left open `d` deep the list, once there are `d` of them.
   */
  ghost predicate After(p: Parse<Sexp>, q: Parse<Sexp>, n: nat, d: nat) {
    match p
    case Parsed(v, rest) => q == Parsed(v, rest + Closing(n))
    case Malformed(fault) =>
      match fault
      case UnterminatedQuote => q == p
      case EndInsideList => d > 0 && if n < d then q == p else q.Parsed? && q.rest == Closers(n - d)
      case ExpectedOpen => false
  }

  lemma ClosingPlain(n: nat)
    ensures Plain(Closing(n))
  {
    ClosersPlain(n);
  }

  lemma ClosersSkip(n: nat)
    ensures Skipped(Closers(n)) == Closers(n) && Skipped(Closing(n)) == Closers(n)
  {
    NewlineSkipped(Closers(n));
  }

  /** Closing parentheses where items are read close the list, and leave the rest. */
  lemma ClosersClose(n: nat, items: seq<Sexp>)
    ensures ItemsOf(Closers(n), items) ==
            if n == 0 then Malformed(EndInsideList) else Parsed(List(items), Closers(n - 1))
  {
    ClosersSkip(n);
    assert n > 0 ==> Closers(n)[1..] == Closers(n - 1);
  }

  lemma {:induction false} ListMore(s: string) returns (d: nat)
    requires Skipped(s) != [] && Skipped(s)[0] == '('
    ensures forall n: nat :: After(ListOf(s), ListOf(s + Closing(n)), n, d)
    decreases |s|, 0
  {
    hide Closing, ItemsOf;
    var t := Skipped(s);
    d := ItemsMore(t[1..], []);
    forall n: nat ensures After(ListOf(s), ListOf(s + Closing(n)), n, d) {
      SkippedMore(s, Closing(n));
      assert (t + Closing(n))[1..] == t[1..] + Closing(n);
    }
  }

  lemma {:induction false} ItemMore(t: string) returns (d: nat)
    requires |t| > 0 && t[0] != ')' && !IsWs(t[0]) && t[0] != ';'
    ensures forall n: nat :: !IsWs((t + Closing(n))[0]) && (t + Closing(n))[0] != ')'
    ensures forall n: nat :: After(ItemOf(t), ItemOf(t + Closing(n)), n, d)
    decreases |t|, 1
  {
    d := 0;
    if t[0] == '(' {
      assert Skipped(t) == t;
      d := ListMore(t);
    } else if t[0] == '"' {
      QuotedFault(t[1..], []);
      hide After, QuotedOf, Closing;
      forall n: nat ensures After(ItemOf(t), ItemOf(t + Closing(n)), n, d) {
        QuotedItemMore(t, n, d);
      }
    } else {
      hide After, BareLength, Closing;
      forall n: nat ensures After(ItemOf(t), ItemOf(t + Closing(n)), n, d) {
        BareItemMore(t, n, d);
      }
    }
  }

  lemma QuotedItemMore(t: string, n: nat, d: nat)
    requires |t| > 0 && t[0] == '"'
    ensures After(ItemOf(t), ItemOf(t + Closing(n)), n, d)
  {
    hide QuotedOf, Closing, Closers, ItemOf, Plain, After;
    var x := Closing(n);
    QuotedFault(t[1..], []);
    ClosingPlain(n);
    QuotedMore(t[1..], x, []);
    assert (t + x)[0] == t[0] && (t + x)[1..] == t[1..] + x;
    QuotedItem(t);
    QuotedItem(t + x);
    QuotedAfter(ItemOf(t), ItemOf(t + x), n, d);
  }

  lemma QuotedAfter(p: Parse<Sexp>, q: Parse<Sexp>, n: nat, d: nat)
    requires if p.Parsed? then q == Parsed(p.value, p.rest + Closing(n)) else p == q == Malformed(UnterminatedQuote)
    ensures After(p, q, n, d)
  {
  }

  lemma QuotedItem(t: string)
    requires |t| > 0 && t[0] == '"'
    ensures !IsWs(t[0]) && ItemOf(t) == QuotedOf(t[1..], [])
  {
    hide QuotedOf, ListOf, BareLength;
  }

  lemma BareItemMore(t: string, n: nat, d: nat)
    requires |t| > 0 && t[0] != ')' && !IsWs(t[0]) && t[0] != '(' && t[0] != '"'
    ensures After(ItemOf(t), ItemOf(t + Closing(n)), n, d)
  {
    hide QuotedOf, Closing, ListOf, BareLength, IsWs;
    var (k, x) := (BareLength(t), Closing(n));
    BareMore(t, x);
    assert (t + x)[0] == t[0];
    assert (t + x)[..k] == t[..k] && (t + x)[k..] == t[k..] + x;
  }

  lemma {:induction false} ItemsMore(s: string, items: seq<Sexp>) returns (d: nat)
    ensures forall n: nat :: After(ItemsOf(s, items), ItemsOf(s + Closing(n), items), n, d)
    decreases |s|, 2
  {
    hide Closing, ItemOf, Skipped, Closers;
    var t := Skipped(s);
    d := 1;
    if |t| == 0 || t[0] == ')' {
      forall n: nat ensures After(ItemsOf(s, items), ItemsOf(s + Closing(n), items), n, 1) {
        EndMore(s, items, n);
      }
    } else {
      var e := ItemMore(t);
      var item := ItemOf(t);
      if item.Parsed? {
        d := ItemsMore(item.rest, items + [item.value]);
      } else {
        d := e + 1;
      }
      forall n: nat ensures After(ItemsOf(s, items), ItemsOf(s + Closing(n), items), n, d) {
        SkippedMore(s, Closing(n));
        assert After(ItemOf(t), ItemOf(t + Closing(n)), n, e);
        if item == Malformed(EndInsideList) && n >= e {
          ClosersClose(n - e, items + [ItemOf(t + Closing(n)).value]);
        }
      }
    }
  }

  /** At the end of the text, or of the list. */
  lemma EndMore(s: string, items: seq<Sexp>, n: nat)
    requires Skipped(s) == [] || Skipped(s)[0] == ')'
    ensures After(ItemsOf(s, items), ItemsOf(s + Closing(n), items), n, 1)
  {
    hide Closing, Skipped;
    var t := Skipped(s);
    SkippedMore(s, Closing(n));
    ClosersSkip(n);
    ClosersClose(n, items);
    if |t| > 0 {
      assert (t + Closing(n))[1..] == t[1..] + Closing(n);
    }
  }

  // ----- the refusals -----

  lemma NoListStays(s: string, n: nat)
    requires Skipped(s) == [] || Skipped(s)[0] != '('
    ensures ListOf(s + Closing(n)) == Malformed(ExpectedOpen)
  {
    hide Closing, Skipped;
    SkippedMore(s, Closing(n));
    ClosersSkip(n);
  }

  /**
   * Every refusal is for its own reason. No list is expected but at an opening parenthesis. Where one opens, the text
   * ends inside it exactly when closing parentheses alone would complete it, however many; and otherwise it ends in a
   * quotation, which none ever would.
   */
  lemma RefusedExactly(s: string)
    ensures ListOf(s) == Malformed(ExpectedOpen) <==> Skipped(s) == [] || Skipped(s)[0] != '('
    ensures ListOf(s) == Malformed(EndInsideList) <==>
              ListOf(s).Malformed? && exists n: nat :: ListOf(s + Closing(n)).Parsed?
    ensures ListOf(s) == Malformed(UnterminatedQuote) <==>
              ListOf(s).Malformed? && Skipped(s) != [] && Skipped(s)[0] == '(' &&
              forall n: nat :: !ListOf(s + Closing(n)).Parsed?
  {
    if Skipped(s) != [] && Skipped(s)[0] == '(' {
      var d := ListMore(s);
      hide ListOf, Closing, Skipped;
      assert After(ListOf(s), ListOf(s + Closing(d)), d, d);
    } else {
      hide Closing, Skipped;
      forall n: nat ensures !ListOf(s + Closing(n)).Parsed? {
        NoListStays(s, n);
      }
    }
  }
}
