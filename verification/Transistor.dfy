/**
 * One active transistor among positive conductances: its controlled source makes the matrix unsymmetric and
 * still never singular. Summing the law over everything above a voltage leaves only what crosses that cut.
 */
module Transistor {
  import opened Options
  import opened Graph
  import opened Sums
  import opened Circuit
  import opened Prepare
  import opened Tables
  import opened Linear
  import opened Passive
  import opened Regions
  import opened Results

  // ----- the current over a cut -----

  /** What a branch carrying `amps` from `a` to `b` takes out of the supernodes `t`. */
  function Across(t: set<nat>, a: nat, b: nat, amps: real): real {
    (if a in t then amps else 0.0) - (if b in t then amps else 0.0)
  }

  function ResistorCut(ix: Index, lab: seq<nat>, t: set<nat>, d: seq<real>): Resistor -> real {
    (r: Resistor) =>
      if Conducts(ix, r)
      then Across(t, At(lab, ix[r.a]), At(lab, ix[r.b]), Ohmic(ix[r.a], ix[r.b], Siemens(r), d))
      else 0.0
  }

  function SourceCut(ix: Index, lab: seq<nat>, t: set<nat>, d: seq<real>): Source -> real {
    (s: Source) =>
      if ValidSource(ix, s) && At(lab, ix[s.node]) in t then Conductance(s) * Volt(d, ix[s.node]) else 0.0
  }

  ghost function TerminalCut(ix: Index, lab: seq<nat>, terminals: seq<Terminal>, t: set<nat>,
                             d: seq<real>): Terminal -> real {
    (p: Terminal) =>
      if ValidTerminal(ix, p) && At(lab, ix[p.node]) in t && Fought(ix, lab, terminals, At(lab, ix[p.node]))
      then FLOOR_SIEMENS * Volt(d, ix[p.node]) else 0.0
  }

  function StampCut(t: set<nat>, d: seq<real>): Option<Stamp> -> real {
    (s: Option<Stamp>) =>
      if s.Some? then Across(t, s.value.a, s.value.b, Ohmic(s.value.a, s.value.b, s.value.g, d)) else 0.0
  }

  /** How much more current leaves the supernodes `t` together when every voltage moves by `d`. */
  ghost function Cut(c: Cluster, inputs: Inputs, lab: seq<nat>, stamps: seq<Option<Stamp>>, t: set<nat>,
                     d: seq<real>): real {
    var ix := IndexOf(c.nodes);
    Sum(c.resistors, ResistorCut(ix, lab, t, d)) +
    Sum(inputs.sources, SourceCut(ix, lab, t, d)) +
    Sum(inputs.terminals, TerminalCut(ix, lab, inputs.terminals, t, d)) +
    Sum(stamps, StampCut(t, d))
  }

  lemma CutEmpty(c: Cluster, inputs: Inputs, lab: seq<nat>, stamps: seq<Option<Stamp>>, d: seq<real>)
    ensures Cut(c, inputs, lab, stamps, {}, d) == 0.0
  {
    var ix := IndexOf(c.nodes);
    SumZero(c.resistors, ResistorCut(ix, lab, {}, d));
    SumZero(inputs.sources, SourceCut(ix, lab, {}, d));
    SumZero(inputs.terminals, TerminalCut(ix, lab, inputs.terminals, {}, d));
    SumZero(stamps, StampCut({}, d));
  }

  /** A supernode more behind the cut adds its own load: what runs between it and the others cancels. */
  lemma CutGrows(c: Cluster, inputs: Inputs, lab: seq<nat>, stamps: seq<Option<Stamp>>, t: set<nat>, x: nat,
                 d: seq<real>)
    requires x !in t
    ensures Cut(c, inputs, lab, stamps, t + {x}, d) ==
              Cut(c, inputs, lab, stamps, t, d) + Load(c, inputs, lab, stamps, x, d)
  {
    var ix := IndexOf(c.nodes);
    var more := t + {x};
    var fought := Fought(ix, lab, inputs.terminals, x);
    hide Ohmic, Siemens, Conductance, IndexOf, Fought;
    SumDifference(c.resistors, ResistorFlow(ix, lab, x, d), ResistorCut(ix, lab, more, d), ResistorCut(ix, lab, t, d));
    SumDifference(inputs.sources, SourceLoad(ix, lab, x, d), SourceCut(ix, lab, more, d), SourceCut(ix, lab, t, d));
    SumDifference(inputs.terminals, TerminalLoad(ix, lab, x, fought, d),
                  TerminalCut(ix, lab, inputs.terminals, more, d), TerminalCut(ix, lab, inputs.terminals, t, d));
    SumDifference(stamps, StampLoad(x, d), StampCut(more, d), StampCut(t, d));
  }

  /** Where every supernode's load is fed by one source from `a` to `b`, so is the cut. */
  lemma {:induction false} CutBalance(c: Cluster, inputs: Inputs, lab: seq<nat>, stamps: seq<Option<Stamp>>,
                                      t: set<nat>,
                                      d: seq<real>, a: nat, b: nat, amps: real)
    requires forall x :: x in t ==> Load(c, inputs, lab, stamps, x, d) == -Leaving(x, a, b, amps)
    ensures Cut(c, inputs, lab, stamps, t, d) == -Across(t, a, b, amps)
    decreases |t|
  {
    hide Load, Cut;
    if t == {} {
      CutEmpty(c, inputs, lab, stamps, d);
    } else {
      var x :| x in t;
      CutBalance(c, inputs, lab, stamps, t - {x}, d, a, b, amps);
      CutGrows(c, inputs, lab, stamps, t - {x}, x, d);
      assert t - {x} + {x} == t;
    }
  }

  // ----- a cut by height -----

  /** The supernodes at or above `h`. */
  function Above(lab: seq<nat>, d: seq<real>, h: real): set<nat>
    requires |lab| == |d|
  {
    set x: nat | x < |lab| && lab[x] == x && d[x] >= h
  }

  /** A conductance from one side of the cut to the other carries current out of the higher side. */
  lemma AcrossSign(t: set<nat>, a: nat, b: nat, g: real, da: real, db: real, h: real)
    requires g > 0.0 && (a in t <==> da >= h) && (b in t <==> db >= h)
    ensures Across(t, a, b, g * (da - db)) >= 0.0
    ensures a in t && b !in t ==> Across(t, a, b, g * (da - db)) > 0.0
    ensures b in t && a !in t ==> Across(t, a, b, g * (da - db)) > 0.0
  {
    var out, back := g * (da - db), g * (db - da);
    ProductSign(g, da - db);
    ProductSign(g, db - da);
    assert back == -out;
    assert da > db ==> out > 0.0;
    assert db > da ==> back > 0.0;
  }

  ghost predicate OnLabels(lab: seq<nat>, stamps: seq<Option<Stamp>>) {
    forall s :: s in stamps && s.Some? ==>
      s.value.a < |lab| && lab[s.value.a] == s.value.a && s.value.b < |lab| && lab[s.value.b] == s.value.b
  }

  /** A node is behind the cut when its own voltage is high enough. */
  lemma BehindCut(c: Cluster, lab: seq<nat>, d: seq<real>, h: real, x: nat)
    requires Even(c, lab, d) && x < |lab|
    ensures lab[x] in Above(lab, d, h) <==> d[x] >= h
  {
    assert lab[lab[x]] == lab[x] && d[x] == d[lab[x]];
  }

  lemma SiemensPositive(ix: Index, r: Resistor)
    requires Conducts(ix, r)
    ensures Siemens(r) > 0.0
  {
    PositiveReciprocal(r.ohms.r);
  }

  lemma WireCut(ix: Index, lab: seq<nat>, t: set<nat>, d: seq<real>, r: Resistor)
    ensures !Conducts(ix, r) ==> ResistorCut(ix, lab, t, d)(r) == 0.0
    ensures Conducts(ix, r) && |lab| == |d| && ix[r.a] < |d| && ix[r.b] < |d| ==>
              ResistorCut(ix, lab, t, d)(r) ==
              Across(t, lab[ix[r.a]], lab[ix[r.b]], Times(Siemens(r), d[ix[r.a]] - d[ix[r.b]]))
  {
  }

  lemma AcrossTimes(t: set<nat>, a: nat, b: nat, g: real, da: real, db: real, h: real)
    requires g > 0.0 && (a in t <==> da >= h) && (b in t <==> db >= h)
    ensures Across(t, a, b, Times(g, da - db)) >= 0.0
  {
    AcrossSign(t, a, b, g, da, db, h);
    hide Across;
  }

  lemma WirePositive(c: Cluster, lab: seq<nat>, d: seq<real>, h: real, r: Resistor)
    requires Even(c, lab, d)
    ensures ResistorCut(IndexOf(c.nodes), lab, Above(lab, d, h), d)(r) >= 0.0
  {
    hide Even, Above, IndexOf, Siemens, Across, ResistorCut, Times;
    var ix := IndexOf(c.nodes);
    EvenLengths(c, lab, d);
    var t := Above(lab, d, h);
    WireCut(ix, lab, t, d, r);
    if Conducts(ix, r) {
      IndexBounds(c.nodes);
      var a, b := ix[r.a], ix[r.b];
      BehindCut(c, lab, d, h, a);
      BehindCut(c, lab, d, h, b);
      SiemensPositive(ix, r);
      AcrossTimes(t, lab[a], lab[b], Siemens(r), d[a], d[b], h);
    }
  }

  lemma EvenLengths(c: Cluster, lab: seq<nat>, d: seq<real>)
    requires Even(c, lab, d)
    ensures |lab| == |d| == |c.nodes|
  {
  }

  lemma WiresPositive(c: Cluster, lab: seq<nat>, d: seq<real>, h: real)
    requires Even(c, lab, d)
    ensures Sum(c.resistors, ResistorCut(IndexOf(c.nodes), lab, Above(lab, d, h), d)) >= 0.0
  {
    var cut := ResistorCut(IndexOf(c.nodes), lab, Above(lab, d, h), d);
    forall r | r in c.resistors ensures cut(r) >= 0.0 {
      WirePositive(c, lab, d, h, r);
    }
    SumNonNegative(c.resistors, cut);
  }

  lemma SourcesPositive(c: Cluster, inputs: Inputs, lab: seq<nat>, d: seq<real>, h: real)
    requires Even(c, lab, d) && h > 0.0
    ensures Sum(inputs.sources, SourceCut(IndexOf(c.nodes), lab, Above(lab, d, h), d)) >= 0.0
  {
    var ix := IndexOf(c.nodes);
    var t := Above(lab, d, h);
    IndexBounds(c.nodes);
    forall s | s in inputs.sources ensures SourceCut(ix, lab, t, d)(s) >= 0.0 {
      if ValidSource(ix, s) && At(lab, ix[s.node]) in t {
        PositiveReciprocal(Max(s.impedance.r, IDEAL_SOURCE_FLOOR_OHMS));
        ProductSign(Conductance(s), d[ix[s.node]]);
      }
    }
    SumNonNegative(inputs.sources, SourceCut(ix, lab, t, d));
  }

  lemma FloorTimes(volts: real)
    requires volts > 0.0
    ensures FLOOR_SIEMENS * volts >= 0.0
  {
    PositiveReciprocal(IDEAL_SOURCE_FLOOR_OHMS);
    ProductSign(volts, FLOOR_SIEMENS);
  }

  lemma TerminalsPositive(c: Cluster, inputs: Inputs, lab: seq<nat>, d: seq<real>, h: real)
    requires Even(c, lab, d) && h > 0.0
    ensures Sum(inputs.terminals, TerminalCut(IndexOf(c.nodes), lab, inputs.terminals, Above(lab, d, h), d)) >= 0.0
  {
    var ix := IndexOf(c.nodes);
    var t := Above(lab, d, h);
    var cut := TerminalCut(ix, lab, inputs.terminals, t, d);
    IndexBounds(c.nodes);
    forall p | p in inputs.terminals ensures cut(p) >= 0.0 {
      if ValidTerminal(ix, p) && At(lab, ix[p.node]) in t {
        assert Volt(d, ix[p.node]) == d[At(lab, ix[p.node])];
        FloorTimes(Volt(d, ix[p.node]));
        hide Fought, Volt, IndexOf, Above, Even;
      }
    }
    SumNonNegative(inputs.terminals, cut);
  }

  /** A cut above zero leaks wherever a conductance crosses it. */
  lemma CutLeaks(c: Cluster, inputs: Inputs, lab: seq<nat>, stamps: seq<Option<Stamp>>, d: seq<real>, h: real, i: nat)
    requires Even(c, lab, d) && h > 0.0 && PassiveStamps(stamps) && OnLabels(lab, stamps)
    requires i < |stamps| && stamps[i].Some? &&
             (stamps[i].value.a in Above(lab, d, h) <==> stamps[i].value.b !in Above(lab, d, h))
    ensures Cut(c, inputs, lab, stamps, Above(lab, d, h), d) > 0.0
  {
    var t := Above(lab, d, h);
    WiresPositive(c, lab, d, h);
    SourcesPositive(c, inputs, lab, d, h);
    TerminalsPositive(c, inputs, lab, d, h);
    hide ResistorCut, SourceCut, TerminalCut, IndexOf, Labelling;
    forall s | s in stamps && s.Some?
      ensures StampCut(t, d)(s) >= 0.0
      ensures (s.value.a in t <==> s.value.b !in t) ==> StampCut(t, d)(s) > 0.0
    {
      AcrossSign(t, s.value.a, s.value.b, s.value.g, d[s.value.a], d[s.value.b], h);
    }
    SumNonNegative(stamps, StampCut(t, d));
    assert stamps[i] in stamps;
  }

  lemma {:induction false} SumChanged<T>(s: seq<T>, k: nat, y: T, f: T -> real)
    requires k < |s|
    ensures Sum(s[k := y], f) == Sum(s, f) - f(s[k]) + f(y)
  {
    var u := s[k := y];
    SumRemove(s, k, f);
    SumRemove(u, k, f);
    assert u[..k] == s[..k] && u[k + 1..] == s[k + 1..];
  }

  lemma SumAtLeastTwo(stamps: seq<Option<Stamp>>, i: nat, j: nat, f: Option<Stamp> -> real)
    requires i < |stamps| && j < |stamps| && i != j && f(None) == 0.0 && forall s :: s in stamps ==> f(s) >= 0.0
    ensures Sum(stamps, f) >= f(stamps[i]) + f(stamps[j])
  {
    SumChanged(stamps, i, None, f);
    SumChanged(stamps[i := None], j, None, f);
    var rest := stamps[i := None][j := None];
    forall s | s in rest ensures f(s) >= 0.0 {
      assert s == None || s in stamps;
    }
    SumNonNegative(rest, f);
  }

  /** It leaks at least what two of its stamps carry over it. */
  lemma CutAtLeast(c: Cluster, inputs: Inputs, lab: seq<nat>, stamps: seq<Option<Stamp>>, d: seq<real>, h: real,
                   i: nat, j: nat)
    requires Even(c, lab, d) && h > 0.0 && PassiveStamps(stamps) && OnLabels(lab, stamps)
    requires i < |stamps| && j < |stamps| && i != j
    ensures Cut(c, inputs, lab, stamps, Above(lab, d, h), d) >=
              StampCut(Above(lab, d, h), d)(stamps[i]) + StampCut(Above(lab, d, h), d)(stamps[j])
  {
    var t := Above(lab, d, h);
    WiresPositive(c, lab, d, h);
    SourcesPositive(c, inputs, lab, d, h);
    TerminalsPositive(c, inputs, lab, d, h);
    hide ResistorCut, SourceCut, TerminalCut, IndexOf, Labelling;
    forall s | s in stamps ensures StampCut(t, d)(s) >= 0.0 {
      if s.Some? {
        AcrossSign(t, s.value.a, s.value.b, s.value.g, d[s.value.a], d[s.value.b], h);
      }
    }
    hide Above, Even, Across;
    SumAtLeastTwo(stamps, i, j, StampCut(t, d));
  }

  // ----- the controlled source -----

  /**
   * `gained` is the passive `plain` but for a gain at `j` that follows the branch at `base`, and takes no more back
   * than the two conduct.
   */
  ghost predicate Gained(lab: seq<nat>, plain: seq<Option<Stamp>>, gained: seq<Option<Stamp>>, j: nat, base: nat,
                         k: real) {
    && |plain| == |gained| && j < |plain| && base < |plain| && base != j && PassiveStamps(plain) && OnLabels(lab, plain)
    && plain[j].Some? && plain[base].Some? && plain[base].value.b == plain[j].value.b
    && k + plain[base].value.g + plain[j].value.g > 0.0
    && gained[j].Some? && gained == plain[j := gained[j]] && gained[j].value.gain.Some?
    && gained[j].value == plain[j].value.(gain := gained[j].value.gain)
    && gained[j].value.gain.value.bn == plain[base].value.a && gained[j].value.gain.value.en == plain[base].value.b
    && gained[j].value.gain.value.k == k
  }

  /** The gain adds its own current, out of the collector and into the emitter. */
  lemma GainedCurrent(c: Cluster, inputs: Inputs, lab: seq<nat>, plain: seq<Option<Stamp>>, gained: seq<Option<Stamp>>,
                      j: nat, base: nat, k: real, root: nat, v: seq<real>)
    requires Gained(lab, plain, gained, j, base, k)
    ensures var gain := gained[j].value.gain.value;
            NetCurrent(c, inputs, lab, gained, root, v) == NetCurrent(c, inputs, lab, plain, root, v) +
              Leaving(root, plain[j].value.a, plain[j].value.b,
                      BranchAmps(k, gain.i0, Volt(v, gain.bn), Volt(v, gain.en)))
  {
    SumChanged(plain, j, gained[j], StampFlow(root, v));
    hide ResistorFlow, SourceFlow, TerminalFlow, InjectionFlow, BranchAmps, IndexOf, Fought;
    assert plain[j] in plain;
  }

  ghost predicate SameLaw(c: Cluster, inputs: Inputs, lab: seq<nat>, stamps: seq<Option<Stamp>>, v: seq<real>,
                          w: seq<real>) {
    && Labelling(c, lab) && Grounded(c, inputs, lab, v) && Grounded(c, inputs, lab, w)
    && forall x: nat :: Unknown(c, inputs, lab, x) ==>
         NetCurrent(c, inputs, lab, stamps, At(lab, x), v) == NetCurrent(c, inputs, lab, stamps, At(lab, x), w)
  }

  /** How much more than at `w` the base is above the emitter at `v`. */
  function Drive(v: seq<real>, w: seq<real>, base: Stamp): real
    requires |v| == |w|
  {
    Volt(Less(v, w), base.a) - Volt(Less(v, w), base.b)
  }

  lemma GainedLoad(c: Cluster, inputs: Inputs, lab: seq<nat>, plain: seq<Option<Stamp>>, gained: seq<Option<Stamp>>,
                   j: nat, base: nat, k: real, v: seq<real>, w: seq<real>, x: nat)
    requires Gained(lab, plain, gained, j, base, k) && |v| == |w|
    requires NetCurrent(c, inputs, lab, gained, x, v) == NetCurrent(c, inputs, lab, gained, x, w)
    ensures Load(c, inputs, lab, plain, x, Less(v, w)) ==
            -Leaving(x, plain[j].value.a, plain[j].value.b, Times(k, Drive(v, w, plain[base].value)))
  {
    hide NetCurrent, Load, PassiveStamps, OnLabels;
    var gain := gained[j].value.gain.value;
    GainedCurrent(c, inputs, lab, plain, gained, j, base, k, x, v);
    GainedCurrent(c, inputs, lab, plain, gained, j, base, k, x, w);
    NetCurrentDifference(c, inputs, lab, plain, x, v, w);
    var dv, dw := Volt(v, gain.bn) - Volt(v, gain.en), Volt(w, gain.bn) - Volt(w, gain.en);
    assert Drive(v, w, plain[base].value) == dv - dw;
    assert k * (dv - dw) == k * dv - k * dw;
  }

  /** Above zero every supernode of a difference of grounded voltages is an unknown. */
  lemma AboveUnknown(c: Cluster, inputs: Inputs, lab: seq<nat>, v: seq<real>, w: seq<real>, h: real, x: nat)
    requires |lab| == |c.nodes| && Grounded(c, inputs, lab, v) && Grounded(c, inputs, lab, w)
    requires h > 0.0 && x in Above(lab, Less(v, w), h)
    ensures Unknown(c, inputs, lab, x) && At(lab, x) == x
  {
    hide Reached, Constant, IndexOf;
    assert v[x] != w[x];
  }

  /** Above a cut every load is the controlled source's. */
  lemma AboveLoads(c: Cluster, inputs: Inputs, lab: seq<nat>, plain: seq<Option<Stamp>>, gained: seq<Option<Stamp>>,
                   j: nat, base: nat, k: real, v: seq<real>, w: seq<real>, h: real)
    requires Gained(lab, plain, gained, j, base, k) && SameLaw(c, inputs, lab, gained, v, w) && h > 0.0
    ensures |v| == |w| == |lab|
    ensures Cut(c, inputs, lab, plain, Above(lab, Less(v, w), h), Less(v, w)) ==
            -Across(Above(lab, Less(v, w), h), plain[j].value.a, plain[j].value.b,
                    Times(k, Drive(v, w, plain[base].value)))
  {
    assert |v| == |w| == |lab| == |c.nodes|;
    hide NetCurrent, Load, Cut, Gained, Unknown, Labelling;
    var d := Less(v, w);
    forall x | x in Above(lab, d, h)
      ensures Load(c, inputs, lab, plain, x, d) ==
                -Leaving(x, plain[j].value.a, plain[j].value.b, Times(k, Drive(v, w, plain[base].value)))
    {
      AboveUnknown(c, inputs, lab, v, w, h, x);
      GainedLoad(c, inputs, lab, plain, gained, j, base, k, v, w, x);
    }
    CutBalance(c, inputs, lab, plain, Above(lab, d, h), d, plain[j].value.a, plain[j].value.b,
               Times(k, Drive(v, w, plain[base].value)));
  }

  lemma AboveIff(lab: seq<nat>, d: seq<real>, h: real, x: nat)
    requires |lab| == |d| && x < |lab| && lab[x] == x
    ensures x in Above(lab, d, h) <==> Volt(d, x) >= h
  {
  }

  /** Both stamps have their ends on supernodes, and share their emitter. */
  lemma GainedEnds(c: Cluster, inputs: Inputs, lab: seq<nat>, plain: seq<Option<Stamp>>, gained: seq<Option<Stamp>>,
                   j: nat, base: nat, k: real, v: seq<real>, w: seq<real>)
    requires Gained(lab, plain, gained, j, base, k) && SameLaw(c, inputs, lab, gained, v, w)
    ensures |v| == |w| == |lab| == |Less(v, w)| && Even(c, lab, Less(v, w)) && PassiveStamps(plain) &&
            OnLabels(lab, plain)
    ensures j < |plain| && base < |plain| && base != j && plain[j].Some? && plain[base].Some? &&
            plain[j].value.b == plain[base].value.b && k + plain[base].value.g + plain[j].value.g > 0.0
    ensures var s := plain[base].value; s.a < |lab| && lab[s.a] == s.a && s.b < |lab| && lab[s.b] == s.b
    ensures plain[j].value.a < |lab| && lab[plain[j].value.a] == plain[j].value.a
    ensures plain[base].value.g > 0.0 && plain[j].value.g > 0.0
  {
    assert plain[base] in plain && plain[j] in plain;
    assert Even(c, lab, v) && Even(c, lab, w) by {
      hide Gained, Labelling, Constant, Reached, NetCurrent, Unknown;
    }
    EvenLess(c, lab, v, w);
  }

  /**
   * The current over a cut at `h`, by which of base, emitter and collector are behind it: it is the source's, it is
   * positive where base and emitter are apart, and it is at least what the two branches carry over it.
   */
  ghost predicate ByHeights(k: real, g: real, leak: real, da: real, db: real, dc: real, h: real, cut: real) {
    && cut == (if db >= h then Times(k, da - db) else 0.0) - (if dc >= h then Times(k, da - db) else 0.0)
    && (da >= h > db || db >= h > da ==> cut > 0.0)
    && (da >= h > db && dc >= h ==> cut >= Times(g, da - db) + Times(leak, dc - db))
    && (db >= h > da && dc < h ==> cut >= -Times(g, da - db) - Times(leak, dc - db))
  }

  /** The same said of the set behind the cut. */
  ghost predicate ByCut(t: set<nat>, d: seq<real>, s: Option<Stamp>, p: Option<Stamp>, k: real, cut: real)
    requires s.Some? && p.Some?
  {
    && cut == -Across(t, p.value.a, p.value.b, Times(k, Volt(d, s.value.a) - Volt(d, s.value.b)))
    && ((s.value.a in t <==> s.value.b !in t) ==> cut > 0.0)
    && cut >= StampCut(t, d)(s) + StampCut(t, d)(p)
  }

  lemma CutHeights(t: set<nat>, d: seq<real>, s: Option<Stamp>, p: Option<Stamp>, k: real, h: real, cut: real)
    requires s.Some? && p.Some? && p.value.b == s.value.b && ByCut(t, d, s, p, k, cut)
    requires forall x: nat :: x == s.value.a || x == s.value.b || x == p.value.a ==> (x in t <==> Volt(d, x) >= h)
    ensures ByHeights(k, s.value.g, p.value.g, Volt(d, s.value.a), Volt(d, s.value.b), Volt(d, p.value.a), h, cut)
  {
    StampOut(t, d, s);
    StampOut(t, d, p);
    hide StampCut, Volt, Times;
  }

  lemma CutByHeights(c: Cluster, inputs: Inputs, lab: seq<nat>, plain: seq<Option<Stamp>>, gained: seq<Option<Stamp>>,
                     j: nat, base: nat, k: real, v: seq<real>, w: seq<real>, h: real) returns (cut: real)
    requires Gained(lab, plain, gained, j, base, k) && SameLaw(c, inputs, lab, gained, v, w) && h > 0.0
    ensures |v| == |w| && base < |plain| && plain[base].Some? && j < |plain| && plain[j].Some?
    ensures var s, p, d := plain[base].value, plain[j].value, Less(v, w);
            ByHeights(k, s.g, p.g, Volt(d, s.a), Volt(d, s.b), Volt(d, p.a), h, cut)
  {
    hide *;
    GainedEnds(c, inputs, lab, plain, gained, j, base, k, v, w);
    var d := Less(v, w);
    var t := Above(lab, d, h);
    cut := CutBy(c, inputs, lab, plain, gained, j, base, k, v, w, h);
    AboveIff(lab, d, h, plain[base].value.a);
    AboveIff(lab, d, h, plain[base].value.b);
    AboveIff(lab, d, h, plain[j].value.a);
    CutHeights(t, d, plain[base], plain[j], k, h, cut);
  }

  lemma CutBy(c: Cluster, inputs: Inputs, lab: seq<nat>, plain: seq<Option<Stamp>>, gained: seq<Option<Stamp>>,
              j: nat, base: nat, k: real, v: seq<real>, w: seq<real>, h: real) returns (cut: real)
    requires Gained(lab, plain, gained, j, base, k) && SameLaw(c, inputs, lab, gained, v, w) && h > 0.0
    ensures |v| == |w| == |lab| == |Less(v, w)| && base < |plain| && plain[base].Some? && j < |plain| && plain[j].Some?
    ensures ByCut(Above(lab, Less(v, w), h), Less(v, w), plain[base], plain[j], k, cut)
  {
    hide *;
    GainedEnds(c, inputs, lab, plain, gained, j, base, k, v, w);
    cut := Cut(c, inputs, lab, plain, Above(lab, Less(v, w), h), Less(v, w));
    AboveLoads(c, inputs, lab, plain, gained, j, base, k, v, w, h);
    DriveHeights(v, w, plain[base].value);
    CutLeaksBy(c, inputs, lab, plain, Less(v, w), h, base, j);
    IsByCut(Above(lab, Less(v, w), h), Less(v, w), plain[base], plain[j], k, cut);
  }

  lemma CutLeaksBy(c: Cluster, inputs: Inputs, lab: seq<nat>, plain: seq<Option<Stamp>>, d: seq<real>, h: real,
                   base: nat, j: nat)
    requires Even(c, lab, d) && h > 0.0 && PassiveStamps(plain) && OnLabels(lab, plain) && |lab| == |d|
    requires base < |plain| && j < |plain| && base != j && plain[base].Some?
    ensures var t := Above(lab, d, h);
            && ((plain[base].value.a in t <==> plain[base].value.b !in t) ==> Cut(c, inputs, lab, plain, t, d) > 0.0)
            && Cut(c, inputs, lab, plain, t, d) >= StampCut(t, d)(plain[base]) + StampCut(t, d)(plain[j])
  {
    hide *;
    if plain[base].value.a in Above(lab, d, h) <==> plain[base].value.b !in Above(lab, d, h) {
      CutLeaks(c, inputs, lab, plain, d, h, base);
    }
    CutAtLeast(c, inputs, lab, plain, d, h, base, j);
  }

  lemma IsByCut(t: set<nat>, d: seq<real>, s: Option<Stamp>, p: Option<Stamp>, k: real, cut: real)
    requires s.Some? && p.Some?
    requires cut == -Across(t, p.value.a, p.value.b, Times(k, Volt(d, s.value.a) - Volt(d, s.value.b)))
    requires (s.value.a in t <==> s.value.b !in t) ==> cut > 0.0
    requires cut >= StampCut(t, d)(s) + StampCut(t, d)(p)
    ensures ByCut(t, d, s, p, k, cut)
  {
  }

  /** The base not above the emitter where it is above zero: no more current is driven there than leaks off. */
  lemma BaseNotAhead(c: Cluster, inputs: Inputs, lab: seq<nat>, plain: seq<Option<Stamp>>, gained: seq<Option<Stamp>>,
                     j: nat, base: nat, k: real, v: seq<real>, w: seq<real>)
    requires Gained(lab, plain, gained, j, base, k) && SameLaw(c, inputs, lab, gained, v, w)
    ensures |v| == |w| && base < |plain| && plain[base].Some?
    ensures Drive(v, w, plain[base].value) <= 0.0 || Volt(Less(v, w), plain[base].value.a) <= 0.0
  {
    hide *;
    GainedEnds(c, inputs, lab, plain, gained, j, base, k, v, w);
    var s, p := plain[base].value, plain[j].value;
    var da, db, dc := Volt(Less(v, w), s.a), Volt(Less(v, w), s.b), Volt(Less(v, w), p.a);
    DriveHeights(v, w, s);
    if da > db && da > 0.0 {
      var cut := CutByHeights(c, inputs, lab, plain, gained, j, base, k, v, w, da);
      AheadOutweighed(k, s.g, p.g, da, db, dc, cut);
    }
  }

  /** Nor the emitter ahead of a base that is not below zero. */
  lemma EmitterNotAhead(c: Cluster, inputs: Inputs, lab: seq<nat>, plain: seq<Option<Stamp>>,
                        gained: seq<Option<Stamp>>, j: nat, base: nat, k: real, v: seq<real>, w: seq<real>)
    requires Gained(lab, plain, gained, j, base, k) && SameLaw(c, inputs, lab, gained, v, w)
    ensures |v| == |w| && base < |plain| && plain[base].Some?
    ensures Drive(v, w, plain[base].value) >= 0.0 || Volt(Less(v, w), plain[base].value.a) < 0.0
  {
    hide *;
    GainedEnds(c, inputs, lab, plain, gained, j, base, k, v, w);
    var s, p := plain[base].value, plain[j].value;
    var da, db, dc := Volt(Less(v, w), s.a), Volt(Less(v, w), s.b), Volt(Less(v, w), p.a);
    DriveHeights(v, w, s);
    if da < db && da >= 0.0 {
      var h := if da < dc < db then dc else db;
      var cut := CutByHeights(c, inputs, lab, plain, gained, j, base, k, v, w, h);
      BehindOutweighed(k, s.g, p.g, da, db, dc, cut);
    }
  }

  lemma DriveHeights(v: seq<real>, w: seq<real>, s: Stamp)
    requires |v| == |w|
    ensures Drive(v, w, s) == Volt(Less(v, w), s.a) - Volt(Less(v, w), s.b)
  {
  }

  /** What a stamp carries over a cut that its one end is behind. */
  lemma StampOut(t: set<nat>, d: seq<real>, s: Option<Stamp>)
    requires s.Some?
    ensures var p := s.value;
            && (p.a in t && p.b !in t ==> StampCut(t, d)(s) == Times(p.g, Volt(d, p.a) - Volt(d, p.b)))
            && (p.a !in t && p.b in t ==> StampCut(t, d)(s) == -Times(p.g, Volt(d, p.a) - Volt(d, p.b)))
            && ((p.a in t <==> p.b in t) ==> StampCut(t, d)(s) == 0.0)
  {
  }

  /** What the source takes back is less than what the base's branch and its own carry away. */
  lemma Outweighed(k: real, g: real, leak: real, drive: real, drop: real)
    requires drive > 0.0 && k + g + leak > 0.0 && leak > 0.0
    ensures drop >= drive ==> -Times(k, drive) < Times(g, drive) + Times(leak, drop)
  {
    assert (k + g + leak) * drive > 0.0;
    if drop >= drive {
      assert leak * (drop - drive) >= 0.0;
    }
  }

  lemma TimesTurned(g: real, volts: real)
    ensures Times(g, -volts) == -Times(g, volts)
  {
  }

  lemma AheadOutweighed(k: real, g: real, leak: real, da: real, db: real, dc: real, cut: real)
    requires da > db && k + g + leak > 0.0 && leak > 0.0
    ensures !ByHeights(k, g, leak, da, db, dc, da, cut)
  {
    Outweighed(k, g, leak, da - db, dc - db);
    hide Times;
  }

  /** Behind, the cut is at the collector where that is between the two, and at the emitter otherwise. */
  lemma BehindOutweighed(k: real, g: real, leak: real, da: real, db: real, dc: real, cut: real)
    requires da < db && k + g + leak > 0.0 && leak > 0.0
    ensures !ByHeights(k, g, leak, da, db, dc, if da < dc < db then dc else db, cut)
  {
    Outweighed(k, g, leak, db - da, db - dc);
    TimesTurned(k, da - db);
    TimesTurned(g, da - db);
    TimesTurned(leak, dc - db);
    hide Times;
  }

  /** Two voltages the gained law cannot tell apart drive the source alike. */
  lemma SameDrive(c: Cluster, inputs: Inputs, lab: seq<nat>, plain: seq<Option<Stamp>>, gained: seq<Option<Stamp>>,
                  j: nat, base: nat, k: real, v: seq<real>, w: seq<real>)
    requires Gained(lab, plain, gained, j, base, k) && SameLaw(c, inputs, lab, gained, v, w)
    ensures base < |plain| && plain[base].Some?
    ensures var s := plain[base].value; Volt(v, s.a) - Volt(v, s.b) == Volt(w, s.a) - Volt(w, s.b)
  {
    assert SameLaw(c, inputs, lab, gained, w, v);
    BaseNotAhead(c, inputs, lab, plain, gained, j, base, k, v, w);
    BaseNotAhead(c, inputs, lab, plain, gained, j, base, k, w, v);
    EmitterNotAhead(c, inputs, lab, plain, gained, j, base, k, v, w);
    EmitterNotAhead(c, inputs, lab, plain, gained, j, base, k, w, v);
    hide SameLaw, Gained;
  }

  lemma GainedApart(c: Cluster, inputs: Inputs, lab: seq<nat>, plain: seq<Option<Stamp>>, gained: seq<Option<Stamp>>,
                    j: nat, base: nat, k: real, v: seq<real>, w: seq<real>)
    requires Gained(lab, plain, gained, j, base, k) && SameLaw(c, inputs, lab, gained, v, w)
    ensures SameLaw(c, inputs, lab, plain, v, w)
  {
    SameDrive(c, inputs, lab, plain, gained, j, base, k, v, w);
    hide NetCurrent, Grounded, Unknown, Gained, Labelling;
    forall x: nat | Unknown(c, inputs, lab, x)
      ensures NetCurrent(c, inputs, lab, plain, At(lab, x), v) == NetCurrent(c, inputs, lab, plain, At(lab, x), w)
    {
      GainedSame(c, inputs, lab, plain, gained, j, base, k, At(lab, x), v, w);
    }
  }

  lemma GainedSame(c: Cluster, inputs: Inputs, lab: seq<nat>, plain: seq<Option<Stamp>>, gained: seq<Option<Stamp>>,
                   j: nat, base: nat, k: real, root: nat, v: seq<real>, w: seq<real>)
    requires Gained(lab, plain, gained, j, base, k)
    requires NetCurrent(c, inputs, lab, gained, root, v) == NetCurrent(c, inputs, lab, gained, root, w)
    requires var s := plain[base].value; Volt(v, s.a) - Volt(v, s.b) == Volt(w, s.a) - Volt(w, s.b)
    ensures NetCurrent(c, inputs, lab, plain, root, v) == NetCurrent(c, inputs, lab, plain, root, w)
  {
    hide NetCurrent, PassiveStamps, OnLabels;
    var gain := gained[j].value.gain.value;
    GainedCurrent(c, inputs, lab, plain, gained, j, base, k, root, v);
    GainedCurrent(c, inputs, lab, plain, gained, j, base, k, root, w);
    BranchSame(k, gain.i0, Volt(v, gain.bn), Volt(v, gain.en), Volt(w, gain.bn), Volt(w, gain.en));
    hide BranchAmps;
  }

  lemma BranchSame(g: real, i: real, va: real, vb: real, wa: real, wb: real)
    requires va - vb == wa - wb
    ensures BranchAmps(g, i, va, vb) == BranchAmps(g, i, wa, wb)
  {
  }

  lemma ApartWitness(c: Cluster, inputs: Inputs, lab: seq<nat>, stamps: seq<Option<Stamp>>)
    returns (v: seq<real>, w: seq<real>)
    requires Labelling(c, lab) && Undetermined(c, inputs, lab, stamps)
    ensures SameLaw(c, inputs, lab, stamps, v, w) && v != w
  {
    hide NetCurrent, Grounded, Unknown, Labelling;
    v, w :| Grounded(c, inputs, lab, v) && Grounded(c, inputs, lab, w) && v != w &&
      forall x: nat :: Unknown(c, inputs, lab, x) ==>
        NetCurrent(c, inputs, lab, stamps, At(lab, x), v) == NetCurrent(c, inputs, lab, stamps, At(lab, x), w);
  }

  /** One controlled source leaves the law as able to tell voltages apart as it was. */
  lemma GainedDetermined(c: Cluster, inputs: Inputs, lab: seq<nat>, plain: seq<Option<Stamp>>,
                         gained: seq<Option<Stamp>>,
                         j: nat, base: nat, k: real)
    requires Labelling(c, lab) && Gained(lab, plain, gained, j, base, k)
    ensures Undetermined(c, inputs, lab, gained) ==> Undetermined(c, inputs, lab, plain)
  {
    hide NetCurrent, Grounded, Unknown, Labelling, Gained;
    if Undetermined(c, inputs, lab, gained) {
      var v, w := ApartWitness(c, inputs, lab, gained);
      GainedApart(c, inputs, lab, plain, gained, j, base, k, v, w);
    }
  }

  // ----- of the solver's own stamps -----

  /**
   * No base diode of the source's can take back, by this gain, as much as it and a collector's leakage conduct. Every
   * gain from -1 up is one, and of those below it only what the leakage makes up for.
   */
  predicate EnoughGain(hfe: real) {
    Times(hfe + 1.0, FLOOR_SIEMENS) + 1.0 / GMIN_OHMS > 0.0
  }

  /** Transistor `j` is active, and every other figure of these regions is a positive conductance. */
  ghost predicate OneActive(inputs: Inputs, regions: seq<Region>, j: nat) {
    && |regions| == |inputs.elements| && j < |regions| && regions[j] == Active
    && inputs.elements[j].curve.Bjt? && EnoughGain(inputs.elements[j].curve.hfe)
    && PassiveRegions(inputs, regions[j := Off])
  }

  lemma StampsOnLabels(c: Cluster, inputs: Inputs, lab: seq<nat>, regions: seq<Region>)
    requires Labelling(c, lab) && |regions| == |inputs.elements|
    ensures OnLabels(lab, Stamped(c, inputs, lab, regions))
  {
    IndexBounds(c.nodes);
    var stamps := Stamped(c, inputs, lab, regions);
    forall s | s in stamps && s.Some?
      ensures s.value.a < |lab| && lab[s.value.a] == s.value.a && s.value.b < |lab| && lab[s.value.b] == s.value.b
    {
      var k: nat :| k < |stamps| && stamps[k] == s;
      var i := StampEnds(IndexOf(c.nodes), lab, inputs, regions, k);
    }
  }

  /** An active collector's own branch is the leakage it has when off. */
  lemma SameBare(elements: seq<Option<Resolved>>, regions: seq<Region>, j: nat)
    requires |elements| == |regions| && j < |regions| && regions[j] == Active
    requires elements[j].Some? ==> elements[j].value.curve.Bjt?
    ensures BareStamps(elements, regions[j := Off]) == BareStamps(elements, regions)
  {
    var bare, off := BareStamps(elements, regions), BareStamps(elements, regions[j := Off]);
    forall k: nat | k < |elements| ensures bare[k] == off[k] {
    }
  }

  /** A transistor's base diode is resolved, and ends at its emitter. */
  lemma BaseIsDiode(ix: Index, lab: seq<nat>, inputs: Inputs, j: nat)
    requires j < |inputs.elements| && Resolve(ix, lab, inputs)[j].Some? && Resolve(ix, lab, inputs)[j].value.base.Some?
    ensures var elements := Resolve(ix, lab, inputs);
            var base := elements[j].value.base.value;
            && base < |elements| && elements[base].Some? && elements[base].value.curve.Diode? &&
               elements[base].value.b == elements[j].value.b
  {
    var ends := Ends(ix, lab, inputs);
    assert Resolve(ix, lab, inputs)[j] == WithBase(ends, ends[j]);
    var base := Resolve(ix, lab, inputs)[j].value.base.value;
    assert Resolve(ix, lab, inputs)[base] == WithBase(ends, ends[base]);
  }

  /** The stamps of two assignments that differ in one active transistor differ in its gain. */
  lemma OnlyItsGain(elements: seq<Option<Resolved>>, regions: seq<Region>, j: nat)
    requires |elements| == |regions| && j < |regions| && regions[j] == Active
    requires elements[j].Some? ==> elements[j].value.curve.Bjt?
    ensures var plain, gained := StampsOf(elements, regions[j := Off]), StampsOf(elements, regions);
            && gained == plain[j := gained[j]] && plain[j] == BareStamp(elements[j], regions[j])
            && gained[j] == WithGain(BareStamps(elements, regions), elements[j], plain[j], Active)
  {
    var plain, gained := StampsOf(elements, regions[j := Off]), StampsOf(elements, regions);
    SameBare(elements, regions, j);
    hide BareStamps;
    var bare := BareStamps(elements, regions);
    forall k: nat | k < |plain| && k != j ensures gained[k] == plain[k] {
      assert gained[k] == WithGain(bare, elements[k], bare[k], regions[k]);
    }
    BareAt(elements, regions, j);
  }

  lemma BareAt(elements: seq<Option<Resolved>>, regions: seq<Region>, k: nat)
    requires |elements| == |regions| && k < |regions|
    ensures BareStamps(elements, regions)[k] == BareStamp(elements[k], regions[k])
    ensures elements[k].Some? && elements[k].value.curve.Diode? ==>
              StampsOf(elements, regions)[k] == BareStamp(elements[k], regions[k])
  {
  }

  lemma ActiveStamps(c: Cluster, inputs: Inputs, lab: seq<nat>, regions: seq<Region>, j: nat)
    requires Labelling(c, lab) && OneActive(inputs, regions, j)
    ensures var plain, gained := Stamped(c, inputs, lab, regions[j := Off]), Stamped(c, inputs, lab, regions);
            gained == plain || exists base: nat, k :: Gained(lab, plain, gained, j, base, k)
  {
    var ix := IndexOf(c.nodes);
    var off := regions[j := Off];
    var elements := Resolve(ix, lab, inputs);
    var plain, gained := Stamped(c, inputs, lab, off), Stamped(c, inputs, lab, regions);
    StampsOnLabels(c, inputs, lab, off);
    PassiveRegionsStamp(c, inputs, lab, off);
    ResolvedEnds(ix, lab, inputs, j);
    OnlyItsGain(elements, regions, j);
    if elements[j].Some? && elements[j].value.base.Some? {
      ActiveGains(c, inputs, lab, regions, j);
    } else {
      hide Labelling, IndexOf, Resolve, PassiveStamps, OnLabels, BareStamps, StampsOf, PassiveRegions;
      assert gained[j] == plain[j];
    }
  }

  lemma ActiveGains(c: Cluster, inputs: Inputs, lab: seq<nat>, regions: seq<Region>, j: nat)
    requires Labelling(c, lab) && OneActive(inputs, regions, j)
    requires var e := Resolve(IndexOf(c.nodes), lab, inputs)[j]; e.Some? && e.value.base.Some?
    ensures var plain, gained := Stamped(c, inputs, lab, regions[j := Off]), Stamped(c, inputs, lab, regions);
            exists base: nat, k :: Gained(lab, plain, gained, j, base, k)
  {
    hide Labelling, IndexOf, Resolve, PassiveStamps, OnLabels, BareStamps, StampsOf, PassiveRegions, EnoughGain;
    var ix := IndexOf(c.nodes);
    var off := regions[j := Off];
    var elements := Resolve(ix, lab, inputs);
    var plain, gained := Stamped(c, inputs, lab, off), Stamped(c, inputs, lab, regions);
    var base := elements[j].value.base.value;
    StampsOnLabels(c, inputs, lab, off);
    PassiveRegionsStamp(c, inputs, lab, off);
    ResolvedEnds(ix, lab, inputs, j);
    OnlyItsGain(elements, regions, j);
    BaseIsDiode(ix, lab, inputs, j);
    BareAt(elements, regions, base);
    BareAt(elements, off, base);
    BasePositive(plain, base);
    var hfe, g := elements[j].value.curve.hfe, plain[base].value.g;
    DiodeFloor(elements[base].value.curve, off[base]);
    GainEnough(hfe, g);
    hide StampFigures, Times;
    assert plain[j].value.g == 1.0 / GMIN_OHMS by {
      LeaksOff(elements[j].value.curve);
    }
    assert Gained(lab, plain, gained, j, base, Times(hfe, g));
  }

  lemma LeaksOff(curve: Curve)
    requires curve.Bjt?
    ensures StampFigures(curve, Off).0 == 1.0 / GMIN_OHMS
  {
  }

  lemma GainEnough(hfe: real, g: real)
    requires EnoughGain(hfe) && 0.0 < g <= FLOOR_SIEMENS
    ensures Times(hfe, g) + g + 1.0 / GMIN_OHMS > 0.0
  {
    OneMore(hfe, g);
    MoreByLess(hfe + 1.0, g, FLOOR_SIEMENS);
    hide Times;
  }

  lemma OneMore(hfe: real, g: real)
    ensures Times(hfe, g) + g == Times(hfe + 1.0, g)
  {
  }

  lemma MoreByLess(x: real, g: real, most: real)
    requires 0.0 < g <= most
    ensures Times(x, g) >= 0.0 || Times(x, g) >= Times(x, most)
  {
    if x >= 0.0 {
      assert x * g >= 0.0;
    } else {
      assert x * (most - g) <= 0.0;
    }
  }

  /** No diode conducts more than the impedance floor. */
  lemma DiodeFloor(curve: Curve, region: Region)
    requires curve.Diode?
    ensures StampFigures(curve, region).0 <= FLOOR_SIEMENS
  {
    ReciprocalBelow(Max(curve.rd, IDEAL_SOURCE_FLOOR_OHMS), IDEAL_SOURCE_FLOOR_OHMS);
  }

  lemma ReciprocalBelow(x: real, floor: real)
    requires x >= floor > 0.0
    ensures 1.0 / x <= 1.0 / floor
  {
    var y, z := 1.0 / x, 1.0 / floor;
    assert y * x == 1.0 && z * floor == 1.0;
    PositiveReciprocal(x);
    assert y * (x - floor) >= 0.0;
    assert (z - y) * floor >= 0.0;
  }

  lemma BasePositive(plain: seq<Option<Stamp>>, base: nat)
    requires PassiveStamps(plain) && base < |plain| && plain[base].Some?
    ensures plain[base].value.g > 0.0
  {
    assert plain[base] in plain;
  }

  /** A reached block with one active transistor of enough gain among positive conductances is nonsingular. */
  lemma ActiveDetermined(c: Cluster, inputs: Inputs, lab: seq<nat>, regions: seq<Region>, j: nat)
    requires Labelling(c, lab) && OneActive(inputs, regions, j)
    ensures !Undetermined(c, inputs, lab, Stamped(c, inputs, lab, regions))
  {
    var plain, gained := Stamped(c, inputs, lab, regions[j := Off]), Stamped(c, inputs, lab, regions);
    assert PassiveRegions(inputs, regions[j := Off]);
    hide OneActive, Stamped, Labelling, Undetermined, PassiveRegions, Gained;
    ActiveStamps(c, inputs, lab, regions, j);
    PassiveUndetermined(c, inputs, lab, regions[j := Off]);
    if gained != plain {
      var base: nat, k :| Gained(lab, plain, gained, j, base, k);
      GainedDetermined(c, inputs, lab, plain, gained, j, base, k);
    }
  }

  // ----- whole runs -----

  /** At most one transistor, of enough gain, and regulators of positive current. */
  ghost predicate SingleTransistor(inputs: Inputs) {
    && (forall i, j :: 0 <= i < j < |inputs.elements| ==>
          !(inputs.elements[i].curve.Bjt? && inputs.elements[j].curve.Bjt?))
    && forall k :: 0 <= k < |inputs.elements| ==>
         var curve := inputs.elements[k].curve;
         (curve.Bjt? ==> EnoughGain(curve.hfe)) && (curve.Regulator? ==> curve.iReg > 0.0)
  }

  lemma WantedActive(c: Cluster, inputs: Inputs, lab: seq<nat>, regions: seq<Region>, j: nat)
    requires |regions| == |inputs.elements| && j < |regions| && !inputs.elements[j].curve.Bjt? && regions[j] != Active
    ensures WantedAt(c, inputs, lab, regions)[j] != Active
  {
    ResolvedEnds(IndexOf(c.nodes), lab, inputs, j);
    var e := Resolve(IndexOf(c.nodes), lab, inputs)[j];
    hide Names, Resolve, VoltagesAt, Stamped;
    if e.Some? {
      var stamps := Stamped(c, inputs, lab, regions);
      NamesNotActive(e.value, regions[j], VoltagesAt(c, inputs, lab, stamps), stamps);
    }
  }

  /** Only a transistor is ever active. */
  lemma {:induction false} OnlyTransistorsActive(c: Cluster, inputs: Inputs, lab: seq<nat>, k: nat)
    ensures forall j :: 0 <= j < |inputs.elements| && RegionsAfter(c, inputs, lab, k)[j] == Active ==>
              inputs.elements[j].curve.Bjt?
  {
    hide WantedAt;
    if k > 0 {
      OnlyTransistorsActive(c, inputs, lab, k - 1);
      var before := RegionsAfter(c, inputs, lab, k - 1);
      forall j: nat | j < |before| && !inputs.elements[j].curve.Bjt?
        ensures WantedAt(c, inputs, lab, before)[j] != Active
      {
        WantedActive(c, inputs, lab, before, j);
      }
    }
  }

  lemma SingleDetermined(c: Cluster, inputs: Inputs, lab: seq<nat>, regions: seq<Region>)
    requires Labelling(c, lab) && SingleTransistor(inputs) && |regions| == |inputs.elements|
    requires forall j :: 0 <= j < |regions| && regions[j] == Active ==> inputs.elements[j].curve.Bjt?
    ensures !Undetermined(c, inputs, lab, Stamped(c, inputs, lab, regions))
  {
    hide Labelling, Undetermined, Stamped;
    if j: nat :| j < |regions| && regions[j] == Active {
      assert OneActive(inputs, regions, j);
      ActiveDetermined(c, inputs, lab, regions, j);
    } else {
      assert PassiveRegions(inputs, regions);
      PassiveUndetermined(c, inputs, lab, regions);
    }
  }

  /** With one transistor at most, whatever its regions on the way, no solve of the run meets a singular matrix. */
  lemma OneTransistorRunSolved(c: Cluster, inputs: Inputs, lab: seq<nat>, s: ClusterSolution, k: nat)
    requires Solves(c, inputs, lab, s) && SingleTransistor(inputs) && k < s.solves
    ensures ThePoint(c, inputs, lab, Stamped(c, inputs, lab, RegionsAfter(c, inputs, lab, k))).Some?
  {
    assert DecidedAfter(c, inputs, lab, k);
    hide ThePoint, RegionsAfter, Stamped, Undetermined, Labelling, SolutionOf, SingleTransistor;
    OnlyTransistorsActive(c, inputs, lab, k);
    SingleDetermined(c, inputs, lab, RegionsAfter(c, inputs, lab, k));
  }
}
