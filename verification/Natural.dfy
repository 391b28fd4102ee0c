/** A total order on identifiers in which R2 is before R10, and the listing of a part's pins by it. */
module Natural {

  datatype Ordering = Less | Equal | Greater {
    function Then(next: Ordering): Ordering {
      if this == Equal then next else this
    }

    function Reversed(): Ordering {
      match this
      case Less => Greater
      case Equal => Equal
      case Greater => Less
    }
  }

  function CompareNat(a: nat, b: nat): Ordering {
    if a < b then Less else if a == b then Equal else Greater
  }

  function CompareChar(a: char, b: char): Ordering {
    if a < b then Less else if a == b then Equal else Greater
  }

  predicate IsDigit(c: char) {
    '0' <= c <= '9'
  }

  ghost predicate IsRun(s: string) {
    forall k :: 0 <= k < |s| ==> IsDigit(s[k])
  }

  // ----- the order, by meaning -----

  function Digit(c: char): nat
    requires IsDigit(c)
  {
    c as int - '0' as int
  }

  function Pow10(n: nat): (p: nat)
    ensures p > 0
  {
    if n == 0 then 1 else 10 * Pow10(n - 1)
  }

  /** What a digit is worth with `n` more after it. */
  ghost function Worth(digit: nat, n: nat): nat {
    digit * Pow10(n)
  }

  /** The number a run of digits writes. */
  ghost function Value(run: string): nat
    requires IsRun(run)
  {
    if |run| == 0 then 0 else Worth(Digit(run[0]), |run| - 1) + Value(run[1..])
  }

  /** The first thing a reader sees: a whole run of digits, or one character. */
  ghost function Head(s: string): (head: string)
    requires |s| > 0
    ensures 0 < |head| <= |s| && head == s[..|head|]
    ensures if IsDigit(s[0]) then IsRun(head) && (|head| < |s| ==> !IsDigit(s[|head|])) else |head| == 1
  {
    if IsDigit(s[0]) then s[..DigitsLed(s)] else s[..1]
  }

  function DigitsLed(s: string): (n: nat)
    ensures n <= |s| && IsRun(s[..n]) && (n < |s| ==> !IsDigit(s[n]))
  {
    if |s| == 0 || !IsDigit(s[0]) then 0
    else
      var n := 1 + DigitsLed(s[1..]);
      assert s[..n] == [s[0]] + s[1..][..n - 1];
      n
  }

  /** Runs of digits by value, the shorter first of two that write the same number; anything else by its character. */
  ghost function HeadOrder(x: string, y: string): Ordering
    requires |x| > 0 && |y| > 0 && (IsDigit(x[0]) ==> IsRun(x)) && (IsDigit(y[0]) ==> IsRun(y))
  {
    if IsDigit(x[0]) && IsDigit(y[0]) then CompareNat(Value(x), Value(y)).Then(CompareNat(|x|, |y|))
    else CompareChar(x[0], y[0])
  }

  /** The order a reader would give: head by head, and a prefix first. */
  ghost function Order(a: string, b: string): Ordering {
    if |a| == 0 || |b| == 0 then CompareNat(|a|, |b|)
    else HeadOrder(Head(a), Head(b)).Then(Order(a[|Head(a)|..], b[|Head(b)|..]))
  }

  // ----- runs of digits -----

  lemma WorthSteps(d: nat, e: nat, n: nat)
    requires d < e
    ensures Worth(d, n) + Pow10(n) <= Worth(e, n)
  {
    var p := Pow10(n);
    assert (d + 1) * p <= e * p;
  }

  lemma {:induction false} ValueBelow(run: string)
    requires IsRun(run)
    ensures Value(run) < Pow10(|run|)
  {
    if |run| > 0 {
      ValueBelow(run[1..]);
      WorthSteps(Digit(run[0]), 10, |run| - 1);
    }
  }

  /** A longer run that does not start with a zero writes a larger number. */
  lemma LongerIsLarger(x: string, y: string)
    requires IsRun(x) && IsRun(y) && |x| < |y| && y[0] != '0'
    ensures Value(x) < Value(y)
  {
    hide Worth;
    ValueBelow(x);
    Pow10Grows(|x|, |y| - 1);
    WorthSteps(0, Digit(y[0]), |y| - 1);
  }

  lemma {:induction false} Pow10Grows(m: nat, n: nat)
    requires m <= n
    ensures Pow10(m) <= Pow10(n)
  {
    if m < n {
      Pow10Grows(m, n - 1);
    }
  }

  /** The text order of two strings, character by character. */
  function TextOrder(a: string, b: string): Ordering {
    if |a| == 0 || |b| == 0 then CompareNat(|a|, |b|)
    else CompareChar(a[0], b[0]).Then(TextOrder(a[1..], b[1..]))
  }

  /** Between runs of one length the text order is the order of the numbers. */
  lemma {:induction false} TextIsValue(x: string, y: string)
    requires IsRun(x) && IsRun(y) && |x| == |y|
    ensures TextOrder(x, y) == CompareNat(Value(x), Value(y))
  {
    if |x| > 0 {
      TextIsValue(x[1..], y[1..]);
      ValueBelow(x[1..]);
      ValueBelow(y[1..]);
      var dx, dy := Digit(x[0]), Digit(y[0]);
      hide Worth;
      if dx < dy {
        WorthSteps(dx, dy, |x| - 1);
      } else if dy < dx {
        WorthSteps(dy, dx, |x| - 1);
      }
    }
  }

  lemma {:induction false} TextEqual(x: string, y: string)
    ensures TextOrder(x, y) == Equal <==> x == y
  {
    if |x| > 0 && |y| > 0 {
      TextEqual(x[1..], y[1..]);
      assert x == [x[0]] + x[1..] && y == [y[0]] + y[1..];
    }
  }

  function Trimmed(run: string): (t: string)
    ensures |t| <= |run| && t == run[|run| - |t|..] && (|t| > 0 ==> t[0] != '0')
  {
    if |run| > 0 && run[0] == '0' then Trimmed(run[1..]) else run
  }

  lemma {:induction false} TrimmedValue(run: string)
    requires IsRun(run)
    ensures IsRun(Trimmed(run)) && Value(Trimmed(run)) == Value(run)
  {
    if |run| > 0 && run[0] == '0' {
      TrimmedValue(run[1..]);
    }
  }

  /** Comparing trimmed lengths and then trimmed texts is comparing the numbers. */
  lemma TrimmedIsValue(x: string, y: string)
    requires IsRun(x) && IsRun(y)
    ensures CompareNat(|Trimmed(x)|, |Trimmed(y)|).Then(TextOrder(Trimmed(x), Trimmed(y))) ==
              CompareNat(Value(x), Value(y))
  {
    TrimmedValue(x);
    TrimmedValue(y);
    var tx, ty := Trimmed(x), Trimmed(y);
    if |tx| < |ty| {
      LongerIsLarger(tx, ty);
    } else if |ty| < |tx| {
      LongerIsLarger(ty, tx);
    } else {
      TextIsValue(tx, ty);
    }
  }

  /** Runs of one length and one value are one run: nothing is left to tell apart. */
  lemma SameRun(x: string, y: string)
    requires IsRun(x) && IsRun(y) && |x| == |y| && Value(x) == Value(y)
    ensures x == y
  {
    TextIsValue(x, y);
    TextEqual(x, y);
  }

  // ----- a total order -----

  predicate HeadShaped(x: string) {
    |x| > 0 && if IsDigit(x[0]) then forall k :: 0 <= k < |x| ==> IsDigit(x[k]) else |x| == 1
  }

  lemma HeadEqual(x: string, y: string)
    requires HeadShaped(x) && HeadShaped(y)
    ensures HeadOrder(x, y) == Equal <==> x == y
  {
    if IsDigit(x[0]) && IsDigit(y[0]) && HeadOrder(x, y) == Equal {
      SameRun(x, y);
    }
  }

  /** Heads are ordered transitively: any character that is no digit is below every run, or above every run. */
  lemma HeadTransitive(x: string, y: string, z: string)
    requires HeadShaped(x) && HeadShaped(y) && HeadShaped(z)
    requires HeadOrder(x, y) != Greater && HeadOrder(y, z) != Greater
    ensures HeadOrder(x, z) != Greater
    ensures HeadOrder(x, z) == Equal ==> HeadOrder(x, y) == Equal && HeadOrder(y, z) == Equal
  {
    HeadEqual(x, y);
    HeadEqual(y, z);
    HeadEqual(x, z);
  }

  /** Only identical strings compare equal. */
  lemma {:induction false} OrderEqual(a: string, b: string)
    ensures Order(a, b) == Equal <==> a == b
    decreases |a|
  {
    if |a| > 0 && |b| > 0 {
      var x, y := Head(a), Head(b);
      HeadEqual(x, y);
      OrderEqual(a[|x|..], b[|y|..]);
      assert a == x + a[|x|..] && b == y + b[|y|..];
    }
  }

  lemma HeadReverses(x: string, y: string)
    requires HeadShaped(x) && HeadShaped(y)
    ensures HeadOrder(y, x) == HeadOrder(x, y).Reversed()
  {
    hide Value;
  }

  lemma {:induction false} OrderReverses(a: string, b: string)
    ensures Order(b, a) == Order(a, b).Reversed()
    decreases |a|
  {
    if |a| > 0 && |b| > 0 {
      HeadReverses(Head(a), Head(b));
      hide HeadOrder, Head;
      OrderReverses(a[|Head(a)|..], b[|Head(b)|..]);
    }
  }

  lemma {:induction false} OrderTransitive(a: string, b: string, c: string)
    requires Order(a, b) != Greater && Order(b, c) != Greater
    ensures Order(a, c) != Greater
    decreases |a|
  {
    if |a| > 0 && |b| > 0 && |c| > 0 {
      var x, y, z := Head(a), Head(b), Head(c);
      HeadTransitive(x, y, z);
      if HeadOrder(x, z) == Equal {
        OrderTransitive(a[|x|..], b[|y|..], c[|z|..]);
      }
    }
  }

  /** A shared beginning that does not end in a digit changes nothing: `J2` is before `J10` because 2 is before 10. */
  lemma {:induction false} SharedPrefix(p: string, a: string, b: string)
    requires |p| > 0 ==> !IsDigit(p[|p| - 1])
    ensures Order(p + a, p + b) == Order(a, b)
    decreases |p|
  {
    if |p| == 0 {
      assert p + a == a && p + b == b;
    } else {
      var head := Head(p);
      HeadOfPrefix(p, a);
      HeadOfPrefix(p, b);
      HeadEqual(head, head);
      assert (p + a)[|head|..] == p[|head|..] + a && (p + b)[|head|..] == p[|head|..] + b;
      SharedPrefix(p[|head|..], a, b);
    }
  }

  lemma HeadOfPrefix(p: string, a: string)
    requires |p| > 0 && !IsDigit(p[|p| - 1])
    ensures Head(p + a) == Head(p)
  {
    if IsDigit(p[0]) {
      RunEnds(p, DigitsLed(p));
      RunEnds(p + a, DigitsLed(p));
      assert (p + a)[..DigitsLed(p)] == p[..DigitsLed(p)];
    }
  }

  lemma RunEnds(s: string, n: nat)
    requires n < |s| && IsRun(s[..n]) && !IsDigit(s[n])
    ensures DigitsLed(s) == n
  {
  }

  /** Neither the beginning's last character nor what follows the run belongs to it. */
  predicate Embedded(before: string, run: string, rest: string) {
    && |run| > 0 && (forall k :: 0 <= k < |run| ==> IsDigit(run[k]))
    && (|before| > 0 ==> !IsDigit(before[|before| - 1])) && (|rest| > 0 ==> !IsDigit(rest[0]))
  }

  lemma HeadOfRun(run: string, rest: string)
    requires Embedded([], run, rest)
    ensures Head(run + rest) == run
  {
    var s := run + rest;
    assert s[..|run|] == run;
    if |rest| == 0 {
      AllDigits(s);
    } else {
      RunEnds(s, |run|);
    }
  }

  lemma {:induction false} AllDigits(run: string)
    requires IsRun(run)
    ensures DigitsLed(run) == |run|
  {
    if |run| > 0 {
      AllDigits(run[1..]);
    }
  }

  /**
   * After any shared beginning, two runs of digits compare by the numbers they write, whatever follows either:
   * the smaller number first, the shorter writing first of the same number, and only one run left equal.
   */
  lemma RunsByValue(before: string, x: string, y: string, xRest: string, yRest: string)
    requires Embedded(before, x, xRest) && Embedded(before, y, yRest)
    ensures var order := Order(before + (x + xRest), before + (y + yRest));
            && (Value(x) < Value(y) ==> order == Less)
            && (Value(x) == Value(y) && |x| < |y| ==> order == Less)
            && (x == y ==> order == Order(xRest, yRest))
  {
    SharedPrefix(before, x + xRest, y + yRest);
    HeadOfRun(x, xRest);
    HeadOfRun(y, yRest);
    hide Value, Head;
    assert (x + xRest)[|x|..] == xRest && (y + yRest)[|y|..] == yRest;
  }

  /**
   * After any shared beginning that does not end in a digit, the character with the smaller code comes first, but
   * between two digits, whatever follows either.
   */
  lemma CharactersByCode(before: string, x: char, y: char, s: string, t: string)
    requires |before| > 0 ==> !('0' <= before[|before| - 1] <= '9')
    requires x < y && !('0' <= x && y <= '9')
    ensures Order(before + ([x] + s), before + ([y] + t)) == Less
  {
    SharedPrefix(before, [x] + s, [y] + t);
    assert Head([x] + s)[0] == x && Head([y] + t)[0] == y;
  }

  /** A number as it is written in decimal. */
  function Decimal(n: nat): (s: string)
    ensures |s| > 0
  {
    (if n < 10 then [] else Decimal(n / 10)) + [('0' as int + n % 10) as char]
  }

  lemma {:induction false} ValueMore(run: string, d: char)
    requires IsRun(run) && IsDigit(d)
    ensures IsRun(run + [d]) && Value(run + [d]) == 10 * Value(run) + Digit(d)
  {
    if |run| == 0 {
      assert run + [d] == [d] && [d][1..] == [];
    } else {
      assert (run + [d])[1..] == run[1..] + [d];
      ValueMore(run[1..], d);
      WorthMore(Digit(run[0]), |run| - 1);
    }
  }

  lemma WorthMore(digit: nat, n: nat)
    ensures Worth(digit, n + 1) == 10 * Worth(digit, n)
  {
  }

  lemma {:induction false} DecimalValue(n: nat)
    ensures IsRun(Decimal(n)) && Value(Decimal(n)) == n
  {
    var d := ('0' as int + n % 10) as char;
    var most := if n < 10 then [] else Decimal(n / 10);
    if n >= 10 {
      DecimalValue(n / 10);
    }
    assert Decimal(n) == most + [d];
    ValueMore(most, d);
  }

  /**
   * Numbers are in the order they are counted in, whatever their lengths: after a shared beginning and before anything
   * but more digits, the smaller number comes first.
   */
  lemma NumbersCounted(before: string, m: nat, n: nat, s: string, t: string)
    requires |before| > 0 ==> !('0' <= before[|before| - 1] <= '9')
    requires (|s| > 0 ==> !('0' <= s[0] <= '9')) && (|t| > 0 ==> !('0' <= t[0] <= '9'))
    requires m < n
    ensures Order(before + (Decimal(m) + s), before + (Decimal(n) + t)) == Less
  {
    DecimalValue(m);
    DecimalValue(n);
    hide Value, Decimal;
    RunsByValue(before, Decimal(m), Decimal(n), s, t);
  }

  /** A beginning comes before what it begins. */
  lemma {:induction false} BeginningFirst(a: string, b: string)
    requires b != []
    ensures Order(a, a + b) == Less
    decreases |a|
  {
    if |a| == 0 {
      assert a + b == b;
    } else {
      var (x, y) := (Head(a), Head(a + b));
      if IsDigit(a[0]) && |x| == |a| && IsDigit(b[0]) {
        LongerRun(a, b);
      } else {
        SameHead(a, b);
        HeadEqual(x, x);
        assert (a + b)[|x|..] == a[|x|..] + b;
        BeginningFirst(a[|x|..], b);
      }
    }
  }

  lemma SameHead(a: string, b: string)
    requires |a| > 0 && !(IsDigit(a[0]) && |Head(a)| == |a| && |b| > 0 && IsDigit(b[0]))
    ensures Head(a + b) == Head(a)
  {
    if IsDigit(a[0]) {
      var n := DigitsLed(a);
      assert (a + b)[..n] == a[..n];
      if n < |a + b| {
        assert n < |a| ==> (a + b)[n] == a[n];
        RunEnds(a + b, n);
      } else {
        assert a + b == a;
      }
    }
  }

  /** More digits write no smaller a number, in more characters. */
  lemma LongerRun(a: string, b: string)
    requires |a| > 0 && IsRun(a) && |b| > 0 && IsDigit(b[0])
    ensures Order(a, a + b) == Less
  {
    AllDigits(a);
    assert a[..|a|] == a;
    var run := Head(a + b);
    LongerHead(a, b);
    var more := run[|a|..];
    assert run == a + more;
    ValueGrows(a, more);
    hide Head, Value;
  }

  lemma LongerHead(a: string, b: string)
    requires |a| > 0 && IsRun(a) && |b| > 0 && IsDigit(b[0])
    ensures |Head(a + b)| > |a| && Head(a + b)[..|a|] == a
  {
    var s := a + b;
    forall k | 0 <= k <= |a| ensures IsDigit(s[k]) {
      assert s[k] == if k < |a| then a[k] else b[0];
    }
    assert s[..DigitsLed(s)][..|a|] == a;
  }

  lemma {:induction false} ValueGrows(a: string, more: string)
    requires IsRun(a) && IsRun(more)
    ensures IsRun(a + more) && Value(a) <= Value(a + more)
  {
    if |a| > 0 {
      ValueGrows(a[1..], more);
      assert (a + more)[1..] == a[1..] + more;
      WorthGrows(Digit(a[0]), |a| - 1, |a + more| - 1);
      hide Worth;
    }
  }

  lemma WorthGrows(d: nat, m: nat, n: nat)
    requires m <= n
    ensures Worth(d, m) <= Worth(d, n)
  {
    Pow10Grows(m, n);
    assert d * Pow10(m) <= d * Pow10(n);
  }

  // ----- the comparison -----

  method NaturalCmp(first: string, second: string) returns (order: Ordering)
    ensures order == Order(first, second)
  {
    var a, b := first, second;
    while true
      invariant Order(first, second) == Order(a, b)
      decreases |a|
    {
      if |a| == 0 && |b| == 0 { return Equal; }
      if |a| == 0 { return Less; }
      if |b| == 0 { return Greater; }
      var aDigits, bDigits := DigitsLed(a), DigitsLed(b);
      if aDigits > 0 && bDigits > 0 {
        var aRun, bRun := a[..aDigits], b[..bDigits];
        var aTrim, bTrim := Trimmed(aRun), Trimmed(bRun);
        order := CompareNat(|aTrim|, |bTrim|).Then(TextOrder(aTrim, bTrim)).Then(CompareNat(|aRun|, |bRun|));
        TrimmedIsValue(aRun, bRun);
        assert Head(a) == aRun && Head(b) == bRun;
        if order != Equal { return; }
        a, b := a[aDigits..], b[bDigits..];
      } else {
        order := CompareChar(a[0], b[0]);
        assert !IsDigit(a[0]) || !IsDigit(b[0]);
        assert order == HeadOrder(Head(a), Head(b));
        if order != Equal { return; }
        a, b := a[1..], b[1..];
      }
    }
  }

  // ----- the pins of a part -----

  datatype Node = Node(reference: string, pin: string, pinfunction: string)

  datatype PinSite = PinSite(pin: string, pinfunction: string, net: string)

  function SiteOf(node: Node, netOf: map<(string, string), string>): PinSite {
    var key := (node.reference, node.pin);
    PinSite(node.pin, node.pinfunction, if key in netOf then netOf[key] else "")
  }

  /** `node` is the first of `nodes` to name its pin. */
  ghost predicate IsFirst(nodes: seq<Node>, k: nat) {
    k < |nodes| && forall j :: 0 <= j < k ==> nodes[j].pin != nodes[k].pin
  }

  /** A site says of a node its pin, its function and the net its part's pin is on, if it is on one. */
  predicate Describes(site: PinSite, node: Node, netOf: map<(string, string), string>) {
    && site.pin == node.pin && site.pinfunction == node.pinfunction
    && ((node.reference, node.pin) in netOf ==> site.net == netOf[(node.reference, node.pin)])
    && ((node.reference, node.pin) !in netOf ==> site.net == "")
  }

  lemma OnlySite(site: PinSite, node: Node, netOf: map<(string, string), string>)
    ensures Describes(site, node, netOf) <==> site == SiteOf(node, netOf)
  {
  }

  /** The sites a part is listed with: one per pin, the first node to name it. */
  ghost predicate Lists(sites: seq<PinSite>, nodes: seq<Node>, netOf: map<(string, string), string>) {
    forall s :: s in sites <==> exists k: nat :: IsFirst(nodes, k) && Describes(s, nodes[k], netOf)
  }

  ghost predicate DistinctPins(sites: seq<PinSite>) {
    forall i, j :: 0 <= i < j < |sites| ==> sites[i].pin != sites[j].pin
  }

  ghost predicate InOrder(sites: seq<PinSite>) {
    forall i, j :: 0 <= i < j < |sites| ==> Order(sites[i].pin, sites[j].pin) == Less
  }

  lemma LessTransitive(a: string, b: string, c: string)
    requires Order(a, b) == Less && Order(b, c) == Less
    ensures Order(a, c) == Less
  {
    OrderTransitive(a, b, c);
    OrderEqual(a, c);
    OrderReverses(b, c);
  }

  lemma FitsBetween(sites: seq<PinSite>, site: PinSite, at: nat)
    requires InOrder(sites) && at <= |sites|
    requires at > 0 ==> Order(sites[at - 1].pin, site.pin) == Less
    requires forall k :: at <= k < |sites| ==> Order(site.pin, sites[k].pin) == Less
    ensures InOrder(sites[..at] + [site] + sites[at..])
  {
    hide Order;
    forall k | 0 <= k < at ensures Order(sites[k].pin, site.pin) == Less {
      if k < at - 1 {
        LessTransitive(sites[k].pin, sites[at - 1].pin, site.pin);
      }
    }
  }

  /** One more site, of a pin no other names, into its place. */
  method Insert(sites: seq<PinSite>, site: PinSite) returns (more: seq<PinSite>)
    requires InOrder(sites) && forall k :: 0 <= k < |sites| ==> sites[k].pin != site.pin
    ensures InOrder(more) && multiset(more) == multiset(sites) + multiset{site}
  {
    hide Order;
    var at := |sites|;
    while at > 0
      invariant 0 <= at <= |sites|
      invariant forall k :: at <= k < |sites| ==> Order(site.pin, sites[k].pin) == Less
    {
      var order := NaturalCmp(site.pin, sites[at - 1].pin);
      if order != Less {
        break;
      }
      at := at - 1;
    }
    more := sites[..at] + [site] + sites[at..];
    if at > 0 {
      OrderEqual(site.pin, sites[at - 1].pin);
      OrderReverses(site.pin, sites[at - 1].pin);
    }
    FitsBetween(sites, site, at);
    assert sites == sites[..at] + sites[at..];
  }

  method SortByPin(sites: seq<PinSite>) returns (sorted: seq<PinSite>)
    requires DistinctPins(sites)
    ensures InOrder(sorted) && multiset(sorted) == multiset(sites)
  {
    hide Order;
    sorted := [];
    for k := 0 to |sites|
      invariant InOrder(sorted) && multiset(sorted) == multiset(sites[..k])
    {
      forall j | 0 <= j < |sorted| ensures sorted[j].pin != sites[k].pin {
        assert sorted[j] in multiset(sites[..k]);
      }
      assert sites[..k + 1] == sites[..k] + [sites[k]];
      sorted := Insert(sorted, sites[k]);
    }
    assert sites[..|sites|] == sites;
  }

  /** Unique pins in pin order. */
  method PinSites(nodes: seq<Node>, netOf: map<(string, string), string>) returns (sites: seq<PinSite>)
    ensures InOrder(sites) && Lists(sites, nodes, netOf)
  {
    var seen: set<string> := {};
    var found: seq<PinSite> := [];
    for k := 0 to |nodes|
      invariant seen == set n <- nodes[..k] :: n.pin
      invariant DistinctPins(found) && Lists(found, nodes[..k], netOf)
      invariant forall s :: s in found ==> s.pin in seen
    {
      ListsStep(found, nodes, netOf, k);
      assert nodes[..k + 1] == nodes[..k] + [nodes[k]];
      if nodes[k].pin in seen {
        continue;
      }
      seen := seen + {nodes[k].pin};
      found := found + [SiteOf(nodes[k], netOf)];
    }
    assert nodes[..|nodes|] == nodes;
    sites := SortByPin(found);
    forall s ensures s in sites <==> s in found {
      assert s in sites <==> s in multiset(sites);
      assert s in found <==> s in multiset(found);
    }
  }

  /** One more node lists its own site if it is the first of its pin, and nothing if it is not. */
  lemma ListsStep(found: seq<PinSite>, nodes: seq<Node>, netOf: map<(string, string), string>, k: nat)
    requires k < |nodes| && Lists(found, nodes[..k], netOf)
    ensures IsFirst(nodes, k) ==> Lists(found + [SiteOf(nodes[k], netOf)], nodes[..k + 1], netOf)
    ensures !IsFirst(nodes, k) ==> Lists(found, nodes[..k + 1], netOf)
  {
    hide SiteOf, Describes, IsFirst;
    var less, more := nodes[..k], nodes[..k + 1];
    FirstStays(nodes, less);
    FirstStays(nodes, more);
    var now := if IsFirst(nodes, k) then found + [SiteOf(nodes[k], netOf)] else found;
    forall s ensures s in now <==> exists j: nat :: IsFirst(more, j) && Describes(s, more[j], netOf) {
      OnlySite(s, nodes[k], netOf);
      if s in found {
        var j: nat :| IsFirst(less, j) && Describes(s, less[j], netOf);
        assert IsFirst(more, j) && more[j] == less[j];
      } else if s in now {
        assert IsFirst(more, k) && more[k] == nodes[k];
      }
      if j: nat :| IsFirst(more, j) && Describes(s, more[j], netOf) {
        if j < k {
          assert IsFirst(less, j) && less[j] == more[j];
        } else {
          assert IsFirst(nodes, k) && more[j] == nodes[k];
        }
      }
    }
  }

  /** Later nodes take nothing from a first one. */
  lemma FirstStays(nodes: seq<Node>, less: seq<Node>)
    requires less <= nodes
    ensures forall j: nat :: IsFirst(less, j) <==> j < |less| && IsFirst(nodes, j)
  {
    forall j: nat ensures IsFirst(less, j) <==> j < |less| && IsFirst(nodes, j) {
      assert forall i :: 0 <= i < |less| ==> less[i] == nodes[i];
    }
  }

  /** There is one way to list the same sites in pin order: what the reader sees depends on nothing else. */
  lemma {:induction false} OneOrder(a: seq<PinSite>, b: seq<PinSite>)
    requires InOrder(a) && InOrder(b) && forall s :: s in a <==> s in b
    ensures a == b
  {
    hide Order;
    HasMember(a);
    HasMember(b);
    if |a| > 0 && |b| > 0 {
      assert a[0] in b && b[0] in a;
      OrderReverses(a[0].pin, b[0].pin);
      OrderEqual(a[0].pin, a[0].pin);
      FirstIsApart(a);
      FirstIsApart(b);
      assert a[0] == b[0];
      assert a == [a[0]] + a[1..] && b == [b[0]] + b[1..];
      forall s ensures s in a[1..] <==> s in b[1..] {
        assert s in a <==> s == a[0] || s in a[1..];
        assert s in b <==> s == b[0] || s in b[1..];
      }
      OneOrder(a[1..], b[1..]);
    }
  }

  lemma HasMember(a: seq<PinSite>)
    ensures |a| > 0 ==> exists s :: s in a
  {
    if |a| > 0 {
      assert a[0] in a;
    }
  }

  lemma FirstIsApart(a: seq<PinSite>)
    requires InOrder(a) && |a| > 0
    ensures a[0] !in a[1..]
    ensures forall s :: s in a[1..] ==> Order(a[0].pin, s.pin) == Less
  {
    hide Order;
    OrderEqual(a[0].pin, a[0].pin);
  }
}
