/** The order a cluster's parts are handed over in does not matter to the answer. */
module Order {
  import opened Options
  import opened Graph
  import opened Sums
  import opened Circuit
  import opened Prepare
  import opened Tables
  import opened Linear
  import opened Regions
  import opened Results

  /** The same resistors, sources, injections and terminals in any order; the elements in theirs. */
  ghost predicate Reordered(c: Cluster, inputs: Inputs, c': Cluster, inputs': Inputs) {
    && c.nodes == c'.nodes && inputs.elements == inputs'.elements
    && multiset(c.resistors) == multiset(c'.resistors)
    && multiset(inputs.sources) == multiset(inputs'.sources)
    && multiset(inputs.injections) == multiset(inputs'.injections)
    && multiset(inputs.terminals) == multiset(inputs'.terminals)
  }

  /** Every control node outside the cluster still reads the same terminal first. */
  ghost predicate SameControls(c: Cluster, inputs: Inputs, inputs': Inputs) {
    forall e :: e in inputs.elements && e.control.Some? && e.control.value.0 !in IndexOf(c.nodes) ==>
      FirstHeld(inputs.terminals, e.control.value.0) == FirstHeld(inputs'.terminals, e.control.value.0)
  }

  ghost predicate Twins(c: Cluster, inputs: Inputs, lab: seq<nat>, c': Cluster, inputs': Inputs, lab': seq<nat>) {
    Reordered(c, inputs, c', inputs') && SameControls(c, inputs, inputs') && Labelling(c, lab) && Labelling(c', lab')
  }

  /** Two namings of the same supernodes. */
  ghost predicate SameParts(lab: seq<nat>, lab': seq<nat>) {
    && |lab| == |lab'|
    && (forall x: nat :: x < |lab| ==> lab[x] < |lab| && lab[lab[x]] == lab[x])
    && (forall x: nat :: x < |lab| ==> lab'[x] < |lab| && lab'[lab'[x]] == lab'[x])
    && (forall x: nat, y: nat :: x < |lab| && y < |lab| ==> (lab[x] == lab[y] <==> lab'[x] == lab'[y]))
  }

  lemma SameMembers<T>(s: seq<T>, t: seq<T>)
    requires multiset(s) == multiset(t)
    ensures forall x :: x in s <==> x in t
  {
    forall x ensures x in s <==> x in t {
      assert x in s <==> x in multiset(s);
      assert x in t <==> x in multiset(t);
    }
  }

  lemma SameLinks(c: Cluster, inputs: Inputs, c': Cluster, inputs': Inputs)
    requires Reordered(c, inputs, c', inputs')
    ensures var ix := IndexOf(c.nodes);
            && ZeroLinks(ix, c.resistors) == ZeroLinks(ix, c'.resistors)
            && WireLinks(ix, c.resistors) == WireLinks(ix, c'.resistors)
            && Seeds(ix, inputs) == Seeds(ix, inputs')
  {
    SameMembers(c.resistors, c'.resistors);
    SameMembers(inputs.sources, inputs'.sources);
    SameMembers(inputs.terminals, inputs'.terminals);
  }

  lemma TwinParts(c: Cluster, inputs: Inputs, lab: seq<nat>, c': Cluster, inputs': Inputs, lab': seq<nat>)
    requires Twins(c, inputs, lab, c', inputs', lab')
    ensures SameParts(lab, lab') && |lab| == |c.nodes|
  {
    SameLinks(c, inputs, c', inputs');
    hide SameControls, Reordered, ZeroLinks;
    PartsOf(lab, lab', ZeroLinks(IndexOf(c.nodes), c.resistors));
  }

  lemma PartsOf(lab: seq<nat>, lab': seq<nat>, zero: set<Link>)
    requires Labels(lab, zero) && Labels(lab', zero) && |lab| == |lab'|
    ensures SameParts(lab, lab')
  {
    hide Joined;
  }

  lemma SameReached(c: Cluster, inputs: Inputs, c': Cluster, inputs': Inputs, x: nat)
    requires Reordered(c, inputs, c', inputs')
    ensures Reached(c, inputs, x) <==> Reached(c', inputs', x)
  {
    SameLinks(c, inputs, c', inputs');
  }

  // ----- terminals -----

  lemma SameHeld(ix: Index, lab: seq<nat>, lab': seq<nat>, terminals: seq<Terminal>, terminals': seq<Terminal>, x: nat,
                 v: real)
    requires SameParts(lab, lab') && multiset(terminals) == multiset(terminals') && x < |lab|
    requires forall id :: id in ix ==> ix[id] < |lab|
    ensures HeldAt(ix, lab, terminals, lab[x], v) <==> HeldAt(ix, lab', terminals', lab'[x], v)
  {
    SameMembers(terminals, terminals');
    if HeldAt(ix, lab, terminals, lab[x], v) {
      var t :| t in terminals && ValidTerminal(ix, t) && At(lab, ix[t.node]) == lab[x] && t.volts.r == v;
      assert t in terminals';
    }
    if HeldAt(ix, lab', terminals', lab'[x], v) {
      var t :| t in terminals' && ValidTerminal(ix, t) && At(lab', ix[t.node]) == lab'[x] && t.volts.r == v;
      assert t in terminals;
    }
  }

  lemma SameConstant(ix: Index, lab: seq<nat>, lab': seq<nat>, terminals: seq<Terminal>, terminals': seq<Terminal>,
                     x: nat)
    requires SameParts(lab, lab') && multiset(terminals) == multiset(terminals') && x < |lab|
    requires forall id :: id in ix ==> ix[id] < |lab|
    ensures Fought(ix, lab, terminals, lab[x]) <==> Fought(ix, lab', terminals', lab'[x])
    ensures Constant(ix, lab, terminals, lab[x]) == Constant(ix, lab', terminals', lab'[x])
  {
    forall v ensures HeldAt(ix, lab, terminals, lab[x], v) <==> HeldAt(ix, lab', terminals', lab'[x], v) {
      SameHeld(ix, lab, lab', terminals, terminals', x, v);
    }
    SameConstantFrom(ix, lab, lab', terminals, terminals', lab[x], lab'[x]);
  }

  lemma SameConstantFrom(ix: Index, lab: seq<nat>, lab': seq<nat>, terminals: seq<Terminal>, terminals': seq<Terminal>,
                         p: nat, q: nat)
    requires forall v :: HeldAt(ix, lab, terminals, p, v) <==> HeldAt(ix, lab', terminals', q, v)
    ensures Fought(ix, lab, terminals, p) <==> Fought(ix, lab', terminals', q)
    ensures Constant(ix, lab, terminals, p) == Constant(ix, lab', terminals', q)
  {
    hide HeldAt;
    var a, b := Constant(ix, lab, terminals, p), Constant(ix, lab', terminals', q);
    if a.Some? && b.Some? {
      assert HeldAt(ix, lab, terminals, p, a.value) && HeldAt(ix, lab, terminals, p, b.value);
    }
  }

  lemma SameUnknown(c: Cluster, inputs: Inputs, lab: seq<nat>, c': Cluster, inputs': Inputs, lab': seq<nat>, x: nat)
    requires Reordered(c, inputs, c', inputs') && SameParts(lab, lab') && |lab| == |c.nodes|
    ensures Unknown(c, inputs, lab, x) <==> Unknown(c', inputs', lab', x)
  {
    IndexBounds(c.nodes);
    SameReached(c, inputs, c', inputs', x);
    hide Reached, Constant;
    if x < |c.nodes| {
      SameConstant(IndexOf(c.nodes), lab, lab', inputs.terminals, inputs'.terminals, x);
    }
  }

  // ----- elements -----

  function Renamed(lab: seq<nat>, r: Resolved): Resolved {
    r.(a := At(lab, r.a), b := At(lab, r.b),
       control := match r.control
                  case Some((Local(x), test)) => Some((Local(At(lab, x)), test))
                  case other => other)
  }

  function RenamedStamp(lab: seq<nat>, s: Stamp): Stamp {
    s.(a := At(lab, s.a), b := At(lab, s.b),
       gain := match s.gain
               case None => None
               case Some(g) => Some(g.(bn := At(lab, g.bn), en := At(lab, g.en))))
  }

  ghost predicate Renames(lab: seq<nat>, e: Option<Resolved>, e': Option<Resolved>) {
    (e.None? <==> e'.None?) && (e.Some? ==> e'.value == Renamed(lab, e.value))
  }

  lemma SameEnds(ix: Index, inputs: Inputs, lab: seq<nat>, inputs': Inputs, lab': seq<nat>, k: nat)
    requires SameParts(lab, lab') && inputs.elements == inputs'.elements && k < |inputs.elements|
    requires forall id :: id in ix ==> ix[id] < |lab|
    requires forall e :: e in inputs.elements && e.control.Some? && e.control.value.0 !in ix ==>
               FirstHeld(inputs.terminals, e.control.value.0) == FirstHeld(inputs'.terminals, e.control.value.0)
    ensures Renames(lab', Ends(ix, lab, inputs)[k], Ends(ix, lab', inputs')[k])
  {
    assert inputs.elements[k] in inputs.elements;
    FirstHeldOutside(inputs.terminals,
                     if inputs.elements[k].control.Some? then inputs.elements[k].control.value.0 else 0);
  }

  lemma {:induction false} FirstHeldOutside(terminals: seq<Terminal>, id: NetId)
    ensures !FirstHeld(terminals, id).Local?
  {
    if |terminals| > 0 { FirstHeldOutside(terminals[1..], id); }
  }

  ghost predicate OnLabels(lab: seq<nat>, e: Option<Resolved>) {
    e.Some? ==> e.value.a < |lab| && e.value.b < |lab| && lab[e.value.a] == e.value.a && lab[e.value.b] == e.value.b
  }

  lemma {:induction false} SameDiode(lab: seq<nat>, lab': seq<nat>, ends: seq<Option<Resolved>>,
                                     ends': seq<Option<Resolved>>, base: nat, emitter: nat, k: nat)
    requires SameParts(lab, lab') && |ends| == |ends'| && k <= |ends|
    requires base < |lab| && emitter < |lab| && lab[base] == base && lab[emitter] == emitter
    requires forall j :: 0 <= j < |ends| ==> Renames(lab', ends[j], ends'[j]) && OnLabels(lab, ends[j])
    ensures FirstDiode(ends, base, emitter, k) == FirstDiode(ends', lab'[base], lab'[emitter], k)
    decreases |ends| - k
  {
    if k < |ends| {
      SameDiode(lab, lab', ends, ends', base, emitter, k + 1);
      assert Renames(lab', ends[k], ends'[k]) && OnLabels(lab, ends[k]);
    }
  }

  lemma EndsOnLabels(ix: Index, lab: seq<nat>, inputs: Inputs, k: nat)
    requires k < |inputs.elements| && forall id :: id in ix ==> ix[id] < |lab|
    requires forall x: nat :: x < |lab| ==> lab[x] < |lab| && lab[lab[x]] == lab[x]
    ensures OnLabels(lab, Ends(ix, lab, inputs)[k])
    ensures var e := Ends(ix, lab, inputs)[k];
            e.Some? && e.value.control.Some? && e.value.control.value.0.Local? ==>
              e.value.control.value.0.node < |lab| && lab[e.value.control.value.0.node] == e.value.control.value.0.node
  {
    FirstHeldOutside(inputs.terminals,
                     if inputs.elements[k].control.Some? then inputs.elements[k].control.value.0 else 0);
  }

  lemma SameResolved(ix: Index, inputs: Inputs, lab: seq<nat>, inputs': Inputs, lab': seq<nat>, k: nat)
    requires SameParts(lab, lab') && inputs.elements == inputs'.elements && k < |inputs.elements|
    requires forall id :: id in ix ==> ix[id] < |lab|
    requires forall e :: e in inputs.elements && e.control.Some? && e.control.value.0 !in ix ==>
               FirstHeld(inputs.terminals, e.control.value.0) == FirstHeld(inputs'.terminals, e.control.value.0)
    ensures Renames(lab', Resolve(ix, lab, inputs)[k], Resolve(ix, lab', inputs')[k])
  {
    var ends, ends' := Ends(ix, lab, inputs), Ends(ix, lab', inputs');
    forall j: nat | j < |ends| ensures Renames(lab', ends[j], ends'[j]) && OnLabels(lab, ends[j]) {
      SameEnds(ix, inputs, lab, inputs', lab', j);
      EndsOnLabels(ix, lab, inputs, j);
    }
    EndsOnLabels(ix, lab, inputs, k);
    SameBase(lab, lab', ends, ends', k);
  }

  lemma SameBase(lab: seq<nat>, lab': seq<nat>, ends: seq<Option<Resolved>>, ends': seq<Option<Resolved>>, k: nat)
    requires SameParts(lab, lab') && |ends| == |ends'| && k < |ends|
    requires forall j :: 0 <= j < |ends| ==> Renames(lab', ends[j], ends'[j]) && OnLabels(lab, ends[j])
    requires ends[k].Some? && ends[k].value.control.Some? && ends[k].value.control.value.0.Local? ==>
               ends[k].value.control.value.0.node < |lab| &&
               lab[ends[k].value.control.value.0.node] == ends[k].value.control.value.0.node
    requires ends[k].Some? ==> ends[k].value.base.None?
    ensures Renames(lab', WithBase(ends, ends[k]), WithBase(ends', ends'[k]))
  {
    assert Renames(lab', ends[k], ends'[k]) && OnLabels(lab, ends[k]);
    if ends[k].Some? && ends[k].value.control.Some? && ends[k].value.control.value.0.Local? {
      SameDiode(lab, lab', ends, ends', ends[k].value.control.value.0.node, ends[k].value.b, 0);
    }
  }

  // ----- stamps -----

  ghost predicate RenamesStamp(lab: seq<nat>, s: Option<Stamp>, s': Option<Stamp>) {
    (s.None? <==> s'.None?) && (s.Some? ==> s'.value == RenamedStamp(lab, s.value))
  }

  ghost predicate RenamesAll(lab: seq<nat>, elements: seq<Option<Resolved>>, elements': seq<Option<Resolved>>) {
    |elements| == |elements'| && forall k :: 0 <= k < |elements| ==> Renames(lab, elements[k], elements'[k])
  }

  ghost predicate RenamesStamps(lab: seq<nat>, stamps: seq<Option<Stamp>>, stamps': seq<Option<Stamp>>) {
    |stamps| == |stamps'| && forall k :: 0 <= k < |stamps| ==> RenamesStamp(lab, stamps[k], stamps'[k])
  }

  lemma SameStamps(lab: seq<nat>, elements: seq<Option<Resolved>>, elements': seq<Option<Resolved>>,
                   regions: seq<Region>)
    requires RenamesAll(lab, elements, elements') && |regions| == |elements|
    ensures RenamesStamps(lab, StampsOf(elements, regions), StampsOf(elements', regions))
  {
    var bare, bare' := BareStamps(elements, regions), BareStamps(elements', regions);
    forall k | 0 <= k < |elements| ensures RenamesStamp(lab, bare[k], bare'[k]) {
      assert Renames(lab, elements[k], elements'[k]);
    }
    forall k | 0 <= k < |elements|
      ensures RenamesStamp(lab, StampsOf(elements, regions)[k], StampsOf(elements', regions)[k])
    {
      assert Renames(lab, elements[k], elements'[k]) && RenamesStamp(lab, bare[k], bare'[k]);
      SameGain(lab, bare, bare', elements[k], elements'[k], bare[k], bare'[k], regions[k]);
    }
  }

  lemma SameGain(lab: seq<nat>, bare: seq<Option<Stamp>>, bare': seq<Option<Stamp>>, e: Option<Resolved>,
                 e': Option<Resolved>,
                 s: Option<Stamp>, s': Option<Stamp>, region: Region)
    requires RenamesStamps(lab, bare, bare') && Renames(lab, e, e') && RenamesStamp(lab, s, s')
    requires s.Some? ==> s.value.gain.None?
    ensures RenamesStamp(lab, WithGain(bare, e, s, region), WithGain(bare', e', s', region))
  {
    if e.Some? && e.value.base.Some? && e.value.base.value < |bare| {
      var d, d' := bare[e.value.base.value], bare'[e.value.base.value];
      assert RenamesStamp(lab, d, d') && e'.value.curve == e.value.curve && e'.value.base == e.value.base;
    }
  }

  /** Node voltages that are equal over each supernode, whichever way it is named. */
  ghost predicate EvenOver(lab: seq<nat>, v: seq<real>) {
    |v| == |lab| && forall x: nat :: x < |v| ==> v[x] == Volt(v, At(lab, x))
  }

  lemma EvenEither(lab: seq<nat>, lab': seq<nat>, v: seq<real>)
    requires SameParts(lab, lab')
    ensures EvenOver(lab, v) <==> EvenOver(lab', v)
  {
    if EvenOver(lab, v) {
      forall x: nat | x < |v| ensures v[x] == Volt(v, At(lab', x)) {
        assert v[lab'[x]] == Volt(v, At(lab, lab'[x]));
      }
    }
    if EvenOver(lab', v) {
      forall x: nat | x < |v| ensures v[x] == Volt(v, At(lab, x)) {
        assert v[lab[x]] == Volt(v, At(lab', lab[x]));
      }
    }
  }

  ghost predicate StampOnLabels(lab: seq<nat>, s: Stamp) {
    && s.a < |lab| && s.b < |lab| && lab[s.a] == s.a && lab[s.b] == s.b
    && (s.gain.Some? ==> s.gain.value.bn < |lab| && s.gain.value.en < |lab|
                         && lab[s.gain.value.bn] == s.gain.value.bn && lab[s.gain.value.en] == s.gain.value.en)
  }

  lemma SameStampFlow(lab: seq<nat>, lab': seq<nat>, v: seq<real>, x: nat, s: Option<Stamp>, s': Option<Stamp>)
    requires SameParts(lab, lab') && EvenOver(lab', v) && x < |lab| && RenamesStamp(lab', s, s')
    requires s.Some? ==> StampOnLabels(lab, s.value)
    ensures StampFlow(lab[x], v)(s) == StampFlow(lab'[x], v)(s')
  {
    if s.Some? {
      var p := s.value;
      assert v[p.a] == Volt(v, At(lab', p.a)) && v[p.b] == Volt(v, At(lab', p.b));
      if p.gain.Some? {
        assert v[p.gain.value.bn] == Volt(v, At(lab', p.gain.value.bn)) &&
               v[p.gain.value.en] == Volt(v, At(lab', p.gain.value.en));
      }
      assert StampCurrent(p, v) == StampCurrent(s'.value, v);
    }
  }

  lemma {:induction false} SameStampSum(lab: seq<nat>, lab': seq<nat>, v: seq<real>, x: nat, stamps: seq<Option<Stamp>>,
                                        stamps': seq<Option<Stamp>>)
    requires SameParts(lab, lab') && EvenOver(lab', v) && x < |lab| && RenamesStamps(lab', stamps, stamps')
    requires forall k :: 0 <= k < |stamps| && stamps[k].Some? ==> StampOnLabels(lab, stamps[k].value)
    ensures Sum(stamps, StampFlow(lab[x], v)) == Sum(stamps', StampFlow(lab'[x], v))
  {
    if |stamps| > 0 {
      var last := |stamps| - 1;
      SameStampSum(lab, lab', v, x, stamps[..last], stamps'[..last]);
      assert RenamesStamp(lab', stamps[last], stamps'[last]);
      SameStampFlow(lab, lab', v, x, stamps[last], stamps'[last]);
    }
  }

  // ----- the law -----

  lemma SameSums(ix: Index, lab: seq<nat>, lab': seq<nat>, c: Cluster, inputs: Inputs, c': Cluster, inputs': Inputs,
                 v: seq<real>, x: nat, fought: bool)
    requires SameParts(lab, lab') && Reordered(c, inputs, c', inputs') && x < |lab|
    requires forall id :: id in ix ==> ix[id] < |lab|
    ensures Sum(c.resistors, ResistorFlow(ix, lab, lab[x], v)) == Sum(c'.resistors, ResistorFlow(ix, lab', lab'[x], v))
    ensures Sum(inputs.sources, SourceFlow(ix, lab, lab[x], v)) ==
              Sum(inputs'.sources, SourceFlow(ix, lab', lab'[x], v))
    ensures Sum(inputs.terminals, TerminalFlow(ix, lab, lab[x], fought, v)) ==
              Sum(inputs'.terminals, TerminalFlow(ix, lab', lab'[x], fought, v))
    ensures Sum(inputs.injections, InjectionFlow(ix, lab, lab[x])) ==
              Sum(inputs'.injections, InjectionFlow(ix, lab', lab'[x]))
  {
    forall r ensures ResistorFlow(ix, lab, lab[x], v)(r) == ResistorFlow(ix, lab', lab'[x], v)(r) {
    }
    SumEqual(c.resistors, ResistorFlow(ix, lab, lab[x], v), ResistorFlow(ix, lab', lab'[x], v));
    SumPermuted(c.resistors, c'.resistors, ResistorFlow(ix, lab', lab'[x], v));
    SumEqual(inputs.sources, SourceFlow(ix, lab, lab[x], v), SourceFlow(ix, lab', lab'[x], v));
    SumPermuted(inputs.sources, inputs'.sources, SourceFlow(ix, lab', lab'[x], v));
    SumEqual(inputs.terminals, TerminalFlow(ix, lab, lab[x], fought, v), TerminalFlow(ix, lab', lab'[x], fought, v));
    SumPermuted(inputs.terminals, inputs'.terminals, TerminalFlow(ix, lab', lab'[x], fought, v));
    SumEqual(inputs.injections, InjectionFlow(ix, lab, lab[x]), InjectionFlow(ix, lab', lab'[x]));
    SumPermuted(inputs.injections, inputs'.injections, InjectionFlow(ix, lab', lab'[x]));
  }

  /** The two circuits' laws agree at every supernode. */
  lemma SameLaw(c: Cluster, inputs: Inputs, lab: seq<nat>, stamps: seq<Option<Stamp>>,
                c': Cluster, inputs': Inputs, lab': seq<nat>, stamps': seq<Option<Stamp>>, v: seq<real>, x: nat)
    requires SameParts(lab, lab') && Reordered(c, inputs, c', inputs') && x < |lab| == |c.nodes|
    requires EvenOver(lab', v) && RenamesStamps(lab', stamps, stamps')
    requires forall k :: 0 <= k < |stamps| && stamps[k].Some? ==> StampOnLabels(lab, stamps[k].value)
    ensures NetCurrent(c, inputs, lab, stamps, At(lab, x), v) == NetCurrent(c', inputs', lab', stamps', At(lab', x), v)
  {
    var ix := IndexOf(c.nodes);
    IndexBounds(c.nodes);
    SameConstant(ix, lab, lab', inputs.terminals, inputs'.terminals, x);
    SameStampSum(lab, lab', v, x, stamps, stamps');
    SameSums(ix, lab, lab', c, inputs, c', inputs', v, x, Fought(ix, lab, inputs.terminals, lab[x]));
  }

  // ----- the operating point -----

  ghost predicate Matched(c: Cluster, inputs: Inputs, lab: seq<nat>, stamps: seq<Option<Stamp>>,
                          c': Cluster, inputs': Inputs, lab': seq<nat>, stamps': seq<Option<Stamp>>) {
    && SameParts(lab, lab') && Reordered(c, inputs, c', inputs') && |lab| == |c.nodes|
    && RenamesStamps(lab', stamps, stamps')
    && forall k :: 0 <= k < |stamps| && stamps[k].Some? ==> StampOnLabels(lab, stamps[k].value)
  }

  lemma SameGrounded(c: Cluster, inputs: Inputs, lab: seq<nat>, c': Cluster, inputs': Inputs, lab': seq<nat>,
                     v: seq<real>)
    requires SameParts(lab, lab') && Reordered(c, inputs, c', inputs') && |lab| == |c.nodes|
    ensures Grounded(c, inputs, lab, v) <==> Grounded(c', inputs', lab', v)
  {
    if |v| == |c.nodes| {
      EvenEither(lab, lab', v);
      IndexBounds(c.nodes);
      forall x: nat | x < |v|
        ensures Constant(IndexOf(c.nodes), lab, inputs.terminals, At(lab, x)) ==
                  Constant(IndexOf(c.nodes), lab', inputs'.terminals, At(lab', x))
        ensures Reached(c, inputs, x) <==> Reached(c', inputs', x)
      {
        SameConstant(IndexOf(c.nodes), lab, lab', inputs.terminals, inputs'.terminals, x);
        SameReached(c, inputs, c', inputs', x);
      }
      hide Constant, Reached;
      assert EvenOver(lab, v) <==> EvenOver(lab', v);
    }
  }

  lemma SameOperating(c: Cluster, inputs: Inputs, lab: seq<nat>, stamps: seq<Option<Stamp>>,
                      c': Cluster, inputs': Inputs, lab': seq<nat>, stamps': seq<Option<Stamp>>, v: seq<real>)
    requires Matched(c, inputs, lab, stamps, c', inputs', lab', stamps')
    ensures OperatingPoint(c, inputs, lab, stamps, v) <==> OperatingPoint(c', inputs', lab', stamps', v)
  {
    SameGrounded(c, inputs, lab, c', inputs', lab', v);
    if Grounded(c, inputs, lab, v) {
      assert EvenOver(lab, v);
      EvenEither(lab, lab', v);
      hide Grounded;
      forall x: nat
        ensures Unknown(c, inputs, lab, x) <==> Unknown(c', inputs', lab', x)
        ensures x < |c.nodes| ==>
                  NetCurrent(c, inputs, lab, stamps, At(lab, x), v) ==
                    NetCurrent(c', inputs', lab', stamps', At(lab', x), v)
      {
        SameUnknown(c, inputs, lab, c', inputs', lab', x);
        if x < |c.nodes| {
          SameLaw(c, inputs, lab, stamps, c', inputs', lab', stamps', v, x);
        }
      }
      hide NetCurrent;
    }
  }

  lemma SameOnly(c: Cluster, inputs: Inputs, lab: seq<nat>, stamps: seq<Option<Stamp>>,
                 c': Cluster, inputs': Inputs, lab': seq<nat>, stamps': seq<Option<Stamp>>, v: seq<real>)
    requires Matched(c, inputs, lab, stamps, c', inputs', lab', stamps')
    ensures OnlyPoint(c, inputs, lab, stamps, v) <==> OnlyPoint(c', inputs', lab', stamps', v)
  {
    forall w ensures OperatingPoint(c, inputs, lab, stamps, w) <==> OperatingPoint(c', inputs', lab', stamps', w) {
      SameOperating(c, inputs, lab, stamps, c', inputs', lab', stamps', w);
    }
    hide OperatingPoint;
  }

  lemma SamePoint(c: Cluster, inputs: Inputs, lab: seq<nat>, stamps: seq<Option<Stamp>>,
                  c': Cluster, inputs': Inputs, lab': seq<nat>, stamps': seq<Option<Stamp>>)
    requires Matched(c, inputs, lab, stamps, c', inputs', lab', stamps')
    ensures ThePoint(c, inputs, lab, stamps) == ThePoint(c', inputs', lab', stamps')
  {
    forall v ensures OnlyPoint(c, inputs, lab, stamps, v) <==> OnlyPoint(c', inputs', lab', stamps', v) {
      SameOnly(c, inputs, lab, stamps, c', inputs', lab', stamps', v);
    }
    hide Matched;
    var p, p' := ThePoint(c, inputs, lab, stamps), ThePoint(c', inputs', lab', stamps');
    if p.Some? {
      assert OnlyPoint(c', inputs', lab', stamps', p.value);
      assert OperatingPoint(c', inputs', lab', stamps', p.value);
    }
  }

  // ----- the run -----

  lemma MatchedIn(c: Cluster, inputs: Inputs, lab: seq<nat>, c': Cluster, inputs': Inputs, lab': seq<nat>,
                  regions: seq<Region>)
    requires Twins(c, inputs, lab, c', inputs', lab') && |regions| == |inputs.elements|
    ensures RenamesAll(lab', Resolve(IndexOf(c.nodes), lab, inputs), Resolve(IndexOf(c.nodes), lab', inputs'))
    ensures Matched(c, inputs, lab, Stamped(c, inputs, lab, regions), c', inputs', lab',
                    Stamped(c', inputs', lab', regions))
  {
    var ix := IndexOf(c.nodes);
    IndexBounds(c.nodes);
    TwinParts(c, inputs, lab, c', inputs', lab');
    var elements, elements' := Resolve(ix, lab, inputs), Resolve(ix, lab', inputs');
    forall k | 0 <= k < |elements| ensures Renames(lab', elements[k], elements'[k]) {
      SameResolved(ix, inputs, lab, inputs', lab', k);
    }
    hide Resolve, Renames;
    SameStamps(lab', elements, elements', regions);
    var stamps := Stamped(c, inputs, lab, regions);
    forall k: nat | k < |stamps| && stamps[k].Some? ensures StampOnLabels(lab, stamps[k].value) {
      StampReached(c, inputs, lab, regions, k);
    }
  }

  /** One supernode's voltage, under either name. */
  ghost predicate ReadsAlike(lab': seq<nat>, voltages: Voltages, voltages': Voltages, p: nat) {
    VoltAt(voltages, p) == VoltAt(voltages', At(lab', p))
  }

  lemma RootVoltage(c: Cluster, inputs: Inputs, lab: seq<nat>, stamps: seq<Option<Stamp>>, p: nat)
    requires p < |c.nodes| && At(lab, p) == p
    ensures var held := Constant(IndexOf(c.nodes), lab, inputs.terminals, p);
            var point := ThePoint(c, inputs, lab, stamps);
            VoltAt(VoltagesAt(c, inputs, lab, stamps), p) ==
            if held.Some? then held
            else if Unknown(c, inputs, lab, p) && point.Some? then Some(Volt(point.value, p))
            else None
  {
  }

  lemma PointOverLabel(c: Cluster, inputs: Inputs, lab: seq<nat>, stamps: seq<Option<Stamp>>, p: nat)
    requires Labelling(c, lab) && p < |lab|
    ensures ThePoint(c, inputs, lab, stamps).Some? ==>
              Volt(ThePoint(c, inputs, lab, stamps).value, p) ==
                Volt(ThePoint(c, inputs, lab, stamps).value, At(lab, p))
    ensures Unknown(c, inputs, lab, p) <==> Unknown(c, inputs, lab, At(lab, p))
  {
    ReachedLabel(c, inputs, lab, p);
    assert At(lab, p) < |lab| && At(lab, At(lab, p)) == At(lab, p);
    hide Labelling, Reached, Constant, NetCurrent, ThePoint;
    var point := ThePoint(c, inputs, lab, stamps);
    if point.Some? {
      assert OnlyPoint(c, inputs, lab, stamps, point.value);
    }
  }

  lemma SameVoltages(c: Cluster, inputs: Inputs, lab: seq<nat>, stamps: seq<Option<Stamp>>,
                     c': Cluster, inputs': Inputs, lab': seq<nat>, stamps': seq<Option<Stamp>>, p: nat)
    requires Matched(c, inputs, lab, stamps, c', inputs', lab', stamps') && Labelling(c', lab') && p < |lab| &&
             lab[p] == p
    ensures ReadsAlike(lab', VoltagesAt(c, inputs, lab, stamps), VoltagesAt(c', inputs', lab', stamps'), p)
  {
    IndexBounds(c.nodes);
    SamePoint(c, inputs, lab, stamps, c', inputs', lab', stamps');
    SameConstant(IndexOf(c.nodes), lab, lab', inputs.terminals, inputs'.terminals, p);
    SameUnknown(c, inputs, lab, c', inputs', lab', p);
    PointOverLabel(c', inputs', lab', stamps', p);
    hide VoltagesAt, ThePoint, Unknown, Constant, Labelling;
    RootVoltage(c, inputs, lab, stamps, p);
    RootVoltage(c', inputs', lab', stamps', lab'[p]);
  }

  ghost predicate AlikeOnLabels(lab: seq<nat>, lab': seq<nat>, voltages: Voltages, voltages': Voltages) {
    forall p: nat :: p < |lab| && lab[p] == p ==> ReadsAlike(lab', voltages, voltages', p)
  }

  lemma SameCurrent(lab: seq<nat>, lab': seq<nat>, voltages: Voltages, voltages': Voltages, s: Option<Stamp>,
                    s': Option<Stamp>)
    requires AlikeOnLabels(lab, lab', voltages, voltages') && RenamesStamp(lab', s, s')
    requires s.Some? && StampOnLabels(lab, s.value)
    ensures CurrentAt(s.value, voltages) == CurrentAt(s'.value, voltages')
  {
    var p := s.value;
    assert ReadsAlike(lab', voltages, voltages', p.a) && ReadsAlike(lab', voltages, voltages', p.b);
    if p.gain.Some? {
      assert ReadsAlike(lab', voltages, voltages', p.gain.value.bn) &&
             ReadsAlike(lab', voltages, voltages', p.gain.value.en);
    }
  }

  /** An element whose ends and control are named by labels. */
  ghost predicate ElementOnLabels(lab: seq<nat>, e: Resolved) {
    && OnLabels(lab, Some(e))
    && (e.control.Some? && e.control.value.0.Local? ==>
          e.control.value.0.node < |lab| && lab[e.control.value.0.node] == e.control.value.0.node)
  }

  lemma SameControlled(lab: seq<nat>, lab': seq<nat>, e: Resolved, voltages: Voltages, voltages': Voltages)
    requires AlikeOnLabels(lab, lab', voltages, voltages') && ElementOnLabels(lab, e)
    ensures Controlled(e, voltages) <==> Controlled(Renamed(lab', e), voltages')
  {
    assert ReadsAlike(lab', voltages, voltages', e.b);
    if e.control.Some? && e.control.value.0.Local? {
      assert ReadsAlike(lab', voltages, voltages', e.control.value.0.node);
    }
  }

  lemma SameBaseCurrent(lab: seq<nat>, lab': seq<nat>, e: Resolved, voltages: Voltages, voltages': Voltages,
                        stamps: seq<Option<Stamp>>, stamps': seq<Option<Stamp>>)
    requires AlikeOnLabels(lab, lab', voltages, voltages') && RenamesStamps(lab', stamps, stamps')
    requires forall k :: 0 <= k < |stamps| && stamps[k].Some? ==> StampOnLabels(lab, stamps[k].value)
    ensures BaseCurrent(e, voltages, stamps) == BaseCurrent(Renamed(lab', e), voltages', stamps')
  {
    if e.base.Some? && e.base.value < |stamps| {
      assert RenamesStamp(lab', stamps[e.base.value], stamps'[e.base.value]);
      if stamps[e.base.value].Some? {
        SameCurrent(lab, lab', voltages, voltages', stamps[e.base.value], stamps'[e.base.value]);
      }
    }
  }

  /** A test names the same region under either naming. */
  lemma SameNames(lab: seq<nat>, lab': seq<nat>, e: Resolved, region: Region, voltages: Voltages, voltages': Voltages,
                  stamps: seq<Option<Stamp>>, stamps': seq<Option<Stamp>>)
    requires AlikeOnLabels(lab, lab', voltages, voltages') && RenamesStamps(lab', stamps, stamps') &&
             ElementOnLabels(lab, e)
    requires forall k :: 0 <= k < |stamps| && stamps[k].Some? ==> StampOnLabels(lab, stamps[k].value)
    ensures Names(e, region, voltages, stamps) == Names(Renamed(lab', e), region, voltages', stamps')
  {
    SameControlled(lab, lab', e, voltages, voltages');
    SameBaseCurrent(lab, lab', e, voltages, voltages', stamps, stamps');
    assert ReadsAlike(lab', voltages, voltages', e.a) && ReadsAlike(lab', voltages, voltages', e.b);
    hide Controlled, BaseCurrent, RenamesStamps, StampOnLabels;
  }

  lemma ResolvedOnLabels(c: Cluster, inputs: Inputs, lab: seq<nat>, k: nat)
    requires Labelling(c, lab) && k < |inputs.elements|
    ensures var e := Resolve(IndexOf(c.nodes), lab, inputs)[k];
            e.Some? ==> ElementOnLabels(lab, e.value)
  {
    IndexBounds(c.nodes);
    EndsOnLabels(IndexOf(c.nodes), lab, inputs, k);
  }

  lemma AlikeVoltages(c: Cluster, inputs: Inputs, lab: seq<nat>, stamps: seq<Option<Stamp>>,
                      c': Cluster, inputs': Inputs, lab': seq<nat>, stamps': seq<Option<Stamp>>)
    requires Matched(c, inputs, lab, stamps, c', inputs', lab', stamps') && Labelling(c', lab')
    ensures AlikeOnLabels(lab, lab', VoltagesAt(c, inputs, lab, stamps), VoltagesAt(c', inputs', lab', stamps'))
  {
    forall p: nat | p < |lab| && lab[p] == p
      ensures ReadsAlike(lab', VoltagesAt(c, inputs, lab, stamps), VoltagesAt(c', inputs', lab', stamps'), p)
    {
      SameVoltages(c, inputs, lab, stamps, c', inputs', lab', stamps', p);
    }
  }

  lemma SameWanted(c: Cluster, inputs: Inputs, lab: seq<nat>, c': Cluster, inputs': Inputs, lab': seq<nat>,
                   regions: seq<Region>)
    requires Twins(c, inputs, lab, c', inputs', lab') && |regions| == |inputs.elements|
    ensures WantedAt(c, inputs, lab, regions) == WantedAt(c', inputs', lab', regions)
  {
    MatchedIn(c, inputs, lab, c', inputs', lab', regions);
    var stamps, stamps' := Stamped(c, inputs, lab, regions), Stamped(c', inputs', lab', regions);
    AlikeVoltages(c, inputs, lab, stamps, c', inputs', lab', stamps');
    var w, w' := WantedAt(c, inputs, lab, regions), WantedAt(c', inputs', lab', regions);
    var elements, elements' := Resolve(IndexOf(c.nodes), lab, inputs), Resolve(IndexOf(c.nodes), lab', inputs');
    hide Resolve, Stamped, VoltagesAt, Names, Labelling, AlikeOnLabels, Reordered, SameParts, SameControls;
    forall k | 0 <= k < |w| ensures w[k] == w'[k] {
      assert Renames(lab', elements[k], elements'[k]);
      if elements[k].Some? {
        ResolvedOnLabels(c, inputs, lab, k);
        SameNames(lab, lab', elements[k].value, regions[k], VoltagesAt(c, inputs, lab, stamps),
                  VoltagesAt(c', inputs', lab', stamps'), stamps, stamps');
      }
    }
  }

  lemma RunStep(c: Cluster, inputs: Inputs, lab: seq<nat>, k: nat)
    ensures RegionsAfter(c, inputs, lab, k + 1) ==
            Flip(WantedAt(c, inputs, lab, RegionsAfter(c, inputs, lab, k)), RegionsAfter(c, inputs, lab, k))
    ensures SettledAfter(c, inputs, lab, k) <==>
              WantedAt(c, inputs, lab, RegionsAfter(c, inputs, lab, k)) == RegionsAfter(c, inputs, lab, k)
  {
    hide WantedAt, Flip;
  }

  lemma SameStep(c: Cluster, inputs: Inputs, lab: seq<nat>, c': Cluster, inputs': Inputs, lab': seq<nat>,
                 regions: seq<Region>, k: nat)
    requires Twins(c, inputs, lab, c', inputs', lab')
    requires regions == RegionsAfter(c, inputs, lab, k) == RegionsAfter(c', inputs', lab', k)
    ensures RegionsAfter(c, inputs, lab, k + 1) == RegionsAfter(c', inputs', lab', k + 1)
    ensures SettledAfter(c, inputs, lab, k) <==> SettledAfter(c', inputs', lab', k)
  {
    hide *;
    RunStep(c, inputs, lab, k);
    RunStep(c', inputs', lab', k);
    SameWanted(c, inputs, lab, c', inputs', lab', regions);
  }

  lemma SameStart(c: Cluster, inputs: Inputs, lab: seq<nat>, c': Cluster, inputs': Inputs, lab': seq<nat>)
    requires Twins(c, inputs, lab, c', inputs', lab')
    ensures RegionsAfter(c, inputs, lab, 0) == RegionsAfter(c', inputs', lab', 0)
  {
    ColdStart(c, inputs, lab);
    ColdStart(c', inputs', lab');
  }

  lemma {:induction false} SameRegions(c: Cluster, inputs: Inputs, lab: seq<nat>, c': Cluster, inputs': Inputs,
                                       lab': seq<nat>, k: nat)
    requires Twins(c, inputs, lab, c', inputs', lab')
    ensures RegionsAfter(c, inputs, lab, k) == RegionsAfter(c', inputs', lab', k)
    ensures SettledAfter(c, inputs, lab, k) <==> SettledAfter(c', inputs', lab', k)
  {
    hide *;
    if k == 0 {
      SameStart(c, inputs, lab, c', inputs', lab');
    } else {
      SameRegions(c, inputs, lab, c', inputs', lab', k - 1);
      SameStep(c, inputs, lab, c', inputs', lab', RegionsAfter(c, inputs, lab, k - 1), k - 1);
    }
    SameStep(c, inputs, lab, c', inputs', lab', RegionsAfter(c, inputs, lab, k), k);
  }

  lemma {:induction false} FirstWhereSame(p: nat -> bool, q: nat -> bool, bound: nat)
    requires forall k: nat :: p(k) == q(k)
    ensures FirstWhere(p, bound) == FirstWhere(q, bound)
  {
    if bound > 0 {
      FirstWhereSame(p, q, bound - 1);
    }
  }

  lemma SameSettles(c: Cluster, inputs: Inputs, lab: seq<nat>, c': Cluster, inputs': Inputs, lab': seq<nat>, bound: nat)
    requires Twins(c, inputs, lab, c', inputs', lab')
    ensures SettlesAt(c, inputs, lab, bound) == SettlesAt(c', inputs', lab', bound)
  {
    hide SettledAfter, Twins;
    var p := (k: nat) => SettledAfter(c, inputs, lab, k);
    var q := (k: nat) => SettledAfter(c', inputs', lab', k);
    forall k: nat ensures p(k) == q(k) {
      SameRegions(c, inputs, lab, c', inputs', lab', k);
    }
    FirstWhereSame(p, q, bound);
  }

  // ----- the answer -----

  lemma SameConductLinks(ix: Index, elements: seq<Element>, stamps: seq<Option<Stamp>>, lab': seq<nat>,
                         stamps': seq<Option<Stamp>>)
    requires RenamesStamps(lab', stamps, stamps')
    ensures ConductLinks(ix, elements, stamps) == ConductLinks(ix, elements, stamps')
  {
    forall k: nat | k < |stamps|
      ensures (stamps[k].Some? && MoreThanLeakage(stamps[k].value)) <==>
                (stamps'[k].Some? && MoreThanLeakage(stamps'[k].value))
    {
      assert RenamesStamp(lab', stamps[k], stamps'[k]);
    }
    hide MoreThanLeakage, RenamesStamp;
  }

  lemma SameFed(c: Cluster, inputs: Inputs, stamps: seq<Option<Stamp>>, c': Cluster, inputs': Inputs, lab': seq<nat>,
                stamps': seq<Option<Stamp>>, x: nat)
    requires Reordered(c, inputs, c', inputs') && RenamesStamps(lab', stamps, stamps')
    ensures Fed(c, inputs, stamps, x) <==> Fed(c', inputs', stamps', x)
  {
    SameLinks(c, inputs, c', inputs');
    SameConductLinks(IndexOf(c.nodes), inputs.elements, stamps, lab', stamps');
    hide RenamesStamps, WireLinks, ConductLinks, Seeds, FedFrom;
  }

  lemma {:induction false} SamePresent(lab: seq<nat>, elements: seq<Option<Resolved>>, elements': seq<Option<Resolved>>)
    requires RenamesAll(lab, elements, elements')
    ensures CountPresent(elements) == CountPresent(elements')
  {
    if |elements| > 0 {
      var last := |elements| - 1;
      assert Renames(lab, elements[last], elements'[last]);
      SamePresent(lab, elements[..last], elements'[..last]);
    }
  }

  lemma SameCount(c: Cluster, inputs: Inputs, lab: seq<nat>, c': Cluster, inputs': Inputs, lab': seq<nat>)
    requires Twins(c, inputs, lab, c', inputs', lab')
    ensures ElementCount(c, inputs, lab) == ElementCount(c', inputs', lab')
  {
    MatchedIn(c, inputs, lab, c', inputs', lab', AllOff(|inputs.elements|));
    hide Resolve, Labelling, Matched;
    SamePresent(lab', Resolve(IndexOf(c.nodes), lab, inputs), Resolve(IndexOf(c.nodes), lab', inputs'));
  }

  lemma SameStates(c: Cluster, inputs: Inputs, lab: seq<nat>, c': Cluster, inputs': Inputs, lab': seq<nat>,
                   regions: seq<Region>, converged: bool)
    requires Twins(c, inputs, lab, c', inputs', lab') && |regions| == |inputs.elements|
    ensures StatesOf(c, inputs, lab, Stamped(c, inputs, lab, regions), converged) ==
            StatesOf(c', inputs', lab', Stamped(c', inputs', lab', regions), converged)
  {
    var stamps, stamps' := Stamped(c, inputs, lab, regions), Stamped(c', inputs', lab', regions);
    MatchedIn(c, inputs, lab, c', inputs', lab', regions);
    SameCount(c, inputs, lab, c', inputs', lab');
    IndexBounds(c.nodes);
    hide Labelling, Stamped, SameControls, StateEntry, RenamesAll;
    forall k: nat | k < |c.nodes|
      ensures StateEntry(c, inputs, lab, stamps, converged, k) == StateEntry(c', inputs', lab', stamps', converged, k)
    {
      SameEntry(c, inputs, lab, stamps, c', inputs', lab', stamps', converged, k);
    }
  }

  lemma SameEntry(c: Cluster, inputs: Inputs, lab: seq<nat>, stamps: seq<Option<Stamp>>,
                  c': Cluster, inputs': Inputs, lab': seq<nat>, stamps': seq<Option<Stamp>>, converged: bool, k: nat)
    requires Matched(c, inputs, lab, stamps, c', inputs', lab', stamps') && k < |c.nodes|
    requires ElementCount(c, inputs, lab) == ElementCount(c', inputs', lab')
    ensures StateEntry(c, inputs, lab, stamps, converged, k) == StateEntry(c', inputs', lab', stamps', converged, k)
  {
    IndexBounds(c.nodes);
    var x := IndexOf(c.nodes)[c.nodes[k]];
    SamePoint(c, inputs, lab, stamps, c', inputs', lab', stamps');
    SameConstant(IndexOf(c.nodes), lab, lab', inputs.terminals, inputs'.terminals, x);
    SameUnknown(c, inputs, lab, c', inputs', lab', x);
    SameFed(c, inputs, stamps, c', inputs', lab', stamps', x);
    hide ThePoint, Constant, Unknown, Fed, ElementCount;
  }

  lemma SameBranchCurrent(c: Cluster, inputs: Inputs, lab: seq<nat>, stamps: seq<Option<Stamp>>,
                          c': Cluster, inputs': Inputs, lab': seq<nat>, stamps': seq<Option<Stamp>>, k: nat)
    requires Matched(c, inputs, lab, stamps, c', inputs', lab', stamps') && Labelling(c', lab') && k < |stamps|
    ensures BranchCurrent(c, inputs, lab, stamps, stamps[k]) == BranchCurrent(c', inputs', lab', stamps', stamps'[k])
  {
    AlikeVoltages(c, inputs, lab, stamps, c', inputs', lab', stamps');
    assert RenamesStamp(lab', stamps[k], stamps'[k]);
    if stamps[k].Some? {
      var s := stamps[k].value;
      var voltages, voltages' := VoltagesAt(c, inputs, lab, stamps), VoltagesAt(c', inputs', lab', stamps');
      assert ReadsAlike(lab', voltages, voltages', s.a) && ReadsAlike(lab', voltages, voltages', s.b);
      SameCurrent(lab, lab', voltages, voltages', stamps[k], stamps'[k]);
      SameFedOverLabel(c, inputs, stamps, c', inputs', lab', stamps', s.a);
      SameFedOverLabel(c, inputs, stamps, c', inputs', lab', stamps', s.b);
      hide VoltagesAt, Fed, CurrentAt, Matched, Labelling;
    }
  }

  lemma SameFedOverLabel(c: Cluster, inputs: Inputs, stamps: seq<Option<Stamp>>,
                         c': Cluster, inputs': Inputs, lab': seq<nat>, stamps': seq<Option<Stamp>>, p: nat)
    requires Reordered(c, inputs, c', inputs') && RenamesStamps(lab', stamps, stamps') && Labelling(c', lab') &&
             p < |lab'|
    ensures Fed(c, inputs, stamps, p) <==> Fed(c', inputs', stamps', At(lab', p))
  {
    SameFed(c, inputs, stamps, c', inputs', lab', stamps', p);
    hide Fed, RenamesStamps;
    if Fed(c', inputs', stamps', p) { FedOverZero(c', inputs', stamps', p, lab'[p]); }
    if Fed(c', inputs', stamps', lab'[p]) { FedOverZero(c', inputs', stamps', lab'[p], p); }
  }

  lemma SameCurrents(c: Cluster, inputs: Inputs, lab: seq<nat>, c': Cluster, inputs': Inputs, lab': seq<nat>,
                     regions: seq<Region>, converged: bool)
    requires Twins(c, inputs, lab, c', inputs', lab') && |regions| == |inputs.elements|
    ensures BranchCurrents(c, inputs, lab, Stamped(c, inputs, lab, regions), converged) ==
            BranchCurrents(c', inputs', lab', Stamped(c', inputs', lab', regions), converged)
  {
    var stamps, stamps' := Stamped(c, inputs, lab, regions), Stamped(c', inputs', lab', regions);
    MatchedIn(c, inputs, lab, c', inputs', lab', regions);
    hide Stamped, SameControls, BranchCurrent, RenamesAll;
    forall k: nat | k < |stamps|
      ensures BranchCurrent(c, inputs, lab, stamps, stamps[k]) == BranchCurrent(c', inputs', lab', stamps', stamps'[k])
    {
      SameBranchCurrent(c, inputs, lab, stamps, c', inputs', lab', stamps', k);
    }
  }

  /** Renaming the supernodes keeps their number. */
  lemma {:induction false} RenamedCount(lab: seq<nat>, lab': seq<nat>, s: set<nat>, t: set<nat>)
    requires SameParts(lab, lab')
    requires forall x :: x in s ==> x < |lab| && lab[x] == x && lab'[x] in t
    ensures |s| <= |t|
    decreases |s|
  {
    if s != {} {
      var x :| x in s;
      forall y | y in s - {x} ensures lab'[y] in t - {lab'[x]} {
      }
      RenamedCount(lab, lab', s - {x}, t - {lab'[x]});
    }
  }

  lemma FewerUnknowns(c: Cluster, inputs: Inputs, lab: seq<nat>, c': Cluster, inputs': Inputs, lab': seq<nat>)
    requires Reordered(c, inputs, c', inputs') && SameParts(lab, lab') && |lab| == |c.nodes| && Labelling(c', lab')
    ensures |UnknownRoots(c, inputs, lab)| <= |UnknownRoots(c', inputs', lab')|
  {
    forall x | x in UnknownRoots(c, inputs, lab)
      ensures x < |lab| && lab[x] == x && lab'[x] in UnknownRoots(c', inputs', lab')
    {
      SameUnknown(c, inputs, lab, c', inputs', lab', x);
      PointOverLabel(c', inputs', lab', [], x);
    }
    RenamedCount(lab, lab', UnknownRoots(c, inputs, lab), UnknownRoots(c', inputs', lab'));
  }

  lemma SameUnknowns(c: Cluster, inputs: Inputs, lab: seq<nat>, c': Cluster, inputs': Inputs, lab': seq<nat>)
    requires Twins(c, inputs, lab, c', inputs', lab')
    ensures |UnknownRoots(c, inputs, lab)| == |UnknownRoots(c', inputs', lab')|
  {
    TwinParts(c, inputs, lab, c', inputs', lab');
    hide SameControls, UnknownRoots;
    FewerUnknowns(c, inputs, lab, c', inputs', lab');
    FewerUnknowns(c', inputs', lab', c, inputs, lab);
  }

  /** The last solve's number: the first that settles, or the bound's. */
  ghost function LastSolve(c: Cluster, inputs: Inputs, lab: seq<nat>, bound: nat): nat {
    var settles := SettlesAt(c, inputs, lab, bound);
    if settles.Some? then settles.value else if bound > 0 then bound - 1 else 0
  }

  lemma SolutionParts(c: Cluster, inputs: Inputs, lab: seq<nat>)
    ensures var n := ElementCount(c, inputs, lab);
            var bound := PWL_SOLVES_PER_ELEMENT * n;
            var converged := n == 0 || SettlesAt(c, inputs, lab, bound).Some?;
            var regions := if n == 0 then AllOff(|inputs.elements|)
                           else RegionsAfter(c, inputs, lab, LastSolve(c, inputs, lab, bound));
            var stamps := Stamped(c, inputs, lab, regions);
            SolutionOf(c, inputs, lab) == ClusterSolution(
              StatesOf(c, inputs, lab, stamps, converged),
              if n == 0 then [] else if converged then regions else AllOff(|inputs.elements|),
              if n == 0 then [] else BranchCurrents(c, inputs, lab, stamps, converged),
              converged,
              if n == 0 then 1 else LastSolve(c, inputs, lab, bound) + 1,
              |UnknownRoots(c, inputs, lab)|)
  {
    hide StatesOf, BranchCurrents, SettlesAt, ElementCount, UnknownRoots, RegionsAfter, Stamped;
  }

  lemma SameSolution(c: Cluster, inputs: Inputs, lab: seq<nat>, c': Cluster, inputs': Inputs, lab': seq<nat>)
    requires Twins(c, inputs, lab, c', inputs', lab')
    ensures SolutionOf(c, inputs, lab) == SolutionOf(c', inputs', lab')
  {
    assert |inputs.elements| == |inputs'.elements|;
    hide *;
    SolutionParts(c, inputs, lab);
    SolutionParts(c', inputs', lab');
    SameUnknowns(c, inputs, lab, c', inputs', lab');
    SameCount(c, inputs, lab, c', inputs', lab');
    var n := ElementCount(c, inputs, lab);
    var bound := PWL_SOLVES_PER_ELEMENT * n;
    SameSettles(c, inputs, lab, c', inputs', lab', bound);
    SameLastSolve(c, inputs, lab, c', inputs', lab', bound);
    var last := LastSolve(c, inputs, lab, bound);
    SameRegions(c, inputs, lab, c', inputs', lab', last);
    var converged := n == 0 || SettlesAt(c, inputs, lab, bound).Some?;
    var regions := if n == 0 then AllOff(|inputs.elements|) else RegionsAfter(c, inputs, lab, last);
    SameStates(c, inputs, lab, c', inputs', lab', regions, converged);
    SameCurrents(c, inputs, lab, c', inputs', lab', regions, converged);
  }

  lemma SameLastSolve(c: Cluster, inputs: Inputs, lab: seq<nat>, c': Cluster, inputs': Inputs, lab': seq<nat>,
                      bound: nat)
    requires SettlesAt(c, inputs, lab, bound) == SettlesAt(c', inputs', lab', bound)
    ensures LastSolve(c, inputs, lab, bound) == LastSolve(c', inputs', lab', bound)
  {
    hide SettlesAt;
  }

  /**
   * Order does not matter: two answers for the same parts, handed over in any order and merged into
   * supernodes under any names, are one answer -- states, regions, currents, convergence and counts.
   */
  lemma OrderDoesNotMatter(c: Cluster, inputs: Inputs, lab: seq<nat>, s: ClusterSolution,
                           c': Cluster, inputs': Inputs, lab': seq<nat>, s': ClusterSolution)
    requires Solves(c, inputs, lab, s) && Solves(c', inputs', lab', s')
    requires Reordered(c, inputs, c', inputs') && SameControls(c, inputs, inputs')
    ensures s == s'
  {
    assert Twins(c, inputs, lab, c', inputs', lab');
    hide Twins, SolutionOf;
    SameSolution(c, inputs, lab, c', inputs', lab');
  }

  /** A cluster and its inputs have one answer, whichever of its nodes name the supernodes. */
  lemma OneAnswer(c: Cluster, inputs: Inputs, lab: seq<nat>, s: ClusterSolution, lab': seq<nat>, s': ClusterSolution)
    requires Solves(c, inputs, lab, s) && Solves(c, inputs, lab', s')
    ensures s == s'
  {
    hide Solves;
    OrderDoesNotMatter(c, inputs, lab, s, c, inputs, lab', s');
  }

  // ----- which controls ask for nothing -----

  ghost predicate OutsideControl(c: Cluster, inputs: Inputs, e: Element) {
    e in inputs.elements && e.control.Some? && e.control.value.0 !in IndexOf(c.nodes)
  }

  /** The finite terminals of every control node outside the cluster declare one voltage. */
  ghost predicate AgreedControls(c: Cluster, inputs: Inputs) {
    forall e, t, u ::
      (OutsideControl(c, inputs, e) && Holds(inputs.terminals, t, e.control.value.0) &&
       Holds(inputs.terminals, u, e.control.value.0))
      ==> t.volts == u.volts
  }

  ghost predicate Holds(terminals: seq<Terminal>, t: Terminal, id: NetId) {
    t in terminals && t.node == id && t.volts.Finite?
  }

  lemma {:induction false} FirstHeldIs(terminals: seq<Terminal>, id: NetId)
    ensures match FirstHeld(terminals, id)
            case Held(v) => exists t :: Holds(terminals, t, id) && t.volts == Finite(v)
            case _ => FirstHeld(terminals, id) == Unheld && !exists t :: Holds(terminals, t, id)
  {
    if |terminals| > 0 {
      assert terminals == [terminals[0]] + terminals[1..];
      if terminals[0].node == id && terminals[0].volts.Finite? {
        assert Holds(terminals, terminals[0], id);
      } else {
        FirstHeldIs(terminals[1..], id);
        if t :| Holds(terminals[1..], t, id) {
          assert Holds(terminals, t, id);
        }
        if t :| Holds(terminals, t, id) {
          assert Holds(terminals[1..], t, id);
        }
      }
    }
  }

  lemma AgreedRead(c: Cluster, inputs: Inputs, inputs': Inputs, e: Element)
    requires AgreedControls(c, inputs) && OutsideControl(c, inputs, e) &&
             multiset(inputs.terminals) == multiset(inputs'.terminals)
    ensures FirstHeld(inputs.terminals, e.control.value.0) == FirstHeld(inputs'.terminals, e.control.value.0)
  {
    var id := e.control.value.0;
    hide OutsideControl;
    forall t ensures Holds(inputs.terminals, t, id) <==> Holds(inputs'.terminals, t, id) {
      assert t in inputs.terminals <==> t in multiset(inputs.terminals);
      assert t in inputs'.terminals <==> t in multiset(inputs'.terminals);
    }
    FirstHeldIs(inputs.terminals, id);
    FirstHeldIs(inputs'.terminals, id);
    hide Holds, FirstHeld;
  }

  /** Any one of a node's finite terminals can be the first. */
  lemma HeldFirst(c: Cluster, inputs: Inputs, t: Terminal, id: NetId) returns (inputs': Inputs)
    requires Holds(inputs.terminals, t, id)
    ensures Reordered(c, inputs, c, inputs') && FirstHeld(inputs'.terminals, id) == Held(t.volts.r)
  {
    var s := inputs.terminals;
    var k: nat :| k < |s| && s[k] == t;
    assert s == s[..k] + [t] + s[k + 1..];
    inputs' := inputs.(terminals := [t] + (s[..k] + s[k + 1..]));
  }

  /** The order of the terminals never reaches a control exactly when each outside control's terminals agree. */
  lemma ControlsAgreeExactlyWhen(c: Cluster, inputs: Inputs)
    ensures AgreedControls(c, inputs) <==>
            forall inputs' :: Reordered(c, inputs, c, inputs') ==> SameControls(c, inputs, inputs')
  {
    hide FirstHeld, IndexOf;
    if AgreedControls(c, inputs) {
      forall inputs' | Reordered(c, inputs, c, inputs') ensures SameControls(c, inputs, inputs') {
        forall e | OutsideControl(c, inputs, e)
          ensures FirstHeld(inputs.terminals, e.control.value.0) == FirstHeld(inputs'.terminals, e.control.value.0)
        {
          AgreedRead(c, inputs, inputs', e);
        }
      }
    } else {
      var e, t, u :| OutsideControl(c, inputs, e) && Holds(inputs.terminals, t, e.control.value.0) &&
                     Holds(inputs.terminals, u, e.control.value.0) && t.volts != u.volts;
      var first := HeldFirst(c, inputs, t, e.control.value.0);
      var second := HeldFirst(c, inputs, u, e.control.value.0);
      hide Reordered;
      assert !(SameControls(c, inputs, first) && SameControls(c, inputs, second));
    }
  }

  /** Where they agree, or every control is inside, the answer is one whatever the order. */
  lemma AgreedOrderDoesNotMatter(c: Cluster, inputs: Inputs, lab: seq<nat>, s: ClusterSolution,
                                 c': Cluster, inputs': Inputs, lab': seq<nat>, s': ClusterSolution)
    requires Solves(c, inputs, lab, s) && Solves(c', inputs', lab', s')
    requires Reordered(c, inputs, c', inputs') && AgreedControls(c, inputs)
    ensures s == s'
  {
    hide Solves, AgreedControls;
    forall e | OutsideControl(c, inputs, e)
      ensures FirstHeld(inputs.terminals, e.control.value.0) == FirstHeld(inputs'.terminals, e.control.value.0)
    {
      AgreedRead(c, inputs, inputs', e);
    }
    OrderDoesNotMatter(c, inputs, lab, s, c', inputs', lab', s');
  }

  // ----- why the controls are asked for -----

  /** A channel between two terminals, controlled by a node outside that two terminals disagree on. */
  function Channelled(first: real, second: real): (Cluster, Inputs) {
    (Cluster([0, 1], []),
     Inputs([], [],
            [Terminal(0, Finite(5.0)), Terminal(1, Finite(0.0)), Terminal(7, Finite(first)),
             Terminal(7, Finite(second))],
            [Element(0, 1, Channel(1.0), Some((7, AtLeast(1.0))))]))
  }

  lemma ChannelledConstants(first: real, second: real)
    ensures var (c, inputs) := Channelled(first, second);
            var ix := IndexOf(c.nodes);
            && ix == map[0 := 0, 1 := 1]
            && Labelling(c, [0, 1])
            && Constant(ix, [0, 1], inputs.terminals, 0) == Some(5.0) &&
               Constant(ix, [0, 1], inputs.terminals, 1) == Some(0.0)
  {
    var (c, inputs) := Channelled(first, second);
    var ix := IndexOf(c.nodes);
    assert FirstAt(c.nodes, 0) == 0 && FirstAt(c.nodes, 1) == 1;
    assert ix == map[0 := 0, 1 := 1];
    assert ZeroLinks(ix, c.resistors) == {};
    forall x: nat, y: nat | x < 2 && y < 2 ensures x == y <==> Joined({}, x, y) {
      if Joined({}, x, y) { ClosedHolds({}, iset{x}, x, y); }
      JoinedSelf({}, x);
    }
    ChannelledHeld(first, second, ix, 0, 5.0);
    ChannelledHeld(first, second, ix, 1, 0.0);
  }

  lemma ChannelledHeld(first: real, second: real, ix: Index, root: nat, volts: real)
    requires ix == map[0 := 0, 1 := 1]
    requires (root == 0 && volts == 5.0) || (root == 1 && volts == 0.0)
    ensures Constant(ix, [0, 1], Channelled(first, second).1.terminals, root) == Some(volts)
  {
    var terminals := Channelled(first, second).1.terminals;
    assert terminals[root] == Terminal(root, Finite(volts)) && terminals[root] in terminals;
    assert HeldAt(ix, [0, 1], terminals, root, volts);
    forall v ensures HeldAt(ix, [0, 1], terminals, root, v) ==> v == volts {
    }
  }

  lemma ChannelledResolved(first: real, second: real)
    ensures var (c, inputs) := Channelled(first, second);
            && Resolve(IndexOf(c.nodes), [0, 1], inputs) ==
                 [Some(Resolved(0, 1, Channel(1.0), Some((Held(first), AtLeast(1.0))), None))]
            && ElementCount(c, inputs, [0, 1]) == 1
  {
    var (c, inputs) := Channelled(first, second);
    var ix := IndexOf(c.nodes);
    ChannelledConstants(first, second);
    hide Constant, Labelling, IndexOf;
    var elements := Resolve(ix, [0, 1], inputs);
    assert FirstHeld(inputs.terminals[1..], 7) == FirstHeld(inputs.terminals[2..], 7);
    assert elements[0] == Some(Resolved(0, 1, Channel(1.0), Some((Held(first), AtLeast(1.0))), None));
    assert elements == [elements[0]];
    assert elements[..0] == [];
  }

  /** The channel follows whichever of the two terminals is listed first. */
  lemma ChannelledRegion(first: real, second: real, region: Region)
    requires region == Off || region == On
    ensures var (c, inputs) := Channelled(first, second);
            WantedAt(c, inputs, [0, 1], [region]) == [OnIf(first >= 1.0)]
  {
    var (c, inputs) := Channelled(first, second);
    ChannelledConstants(first, second);
    ChannelledResolved(first, second);
    hide Constant, Labelling, ThePoint, Stamped, Resolve, Unknown, IndexOf, ElementCount;
    var stamps := Stamped(c, inputs, [0, 1], [region]);
    var voltages := VoltagesAt(c, inputs, [0, 1], stamps);
    assert voltages[0] == Some(5.0) && voltages[1] == Some(0.0);
  }

  /** Swapping the two terminals of an outside control node changes the answer. */
  lemma OutsideControlOrderMatters()
    ensures var (c, inputs) := Channelled(5.0, 0.0);
            var (c', inputs') := Channelled(0.0, 5.0);
            && Reordered(c, inputs, c', inputs') && Labelling(c, [0, 1]) && Labelling(c', [0, 1])
            && SolutionOf(c, inputs, [0, 1]).regions == [On] && SolutionOf(c', inputs', [0, 1]).regions == [Off]
  {
    ChannelledConstants(5.0, 0.0);
    ChannelledConstants(0.0, 5.0);
    ChannelledRuns(5.0, 0.0);
    ChannelledRuns(0.0, 5.0);
    hide SolutionOf, Labelling;
  }

  /** One element whose test names one region whatever it is in: the run settles there, at once or after one flip. */
  lemma SettlesByOne(c: Cluster, inputs: Inputs, lab: seq<nat>, named: Region)
    requires |inputs.elements| == 1
    requires WantedAt(c, inputs, lab, [Off]) == [named] && WantedAt(c, inputs, lab, [named]) == [named]
    ensures var settles := SettlesAt(c, inputs, lab, 2);
            settles.Some? && RegionsAfter(c, inputs, lab, settles.value) == [named]
  {
    ColdStart(c, inputs, lab);
    assert AllOff(1) == [Off];
    hide WantedAt, SettlesAt, RegionsAfter, SettledAfter, AllOff;
    RunStep(c, inputs, lab, 0);
    RunStep(c, inputs, lab, 1);
    assert Flip([named], [Off]) == [named];
    SettlesFirst(c, inputs, lab, 2);
  }

  lemma ChannelledSettles(first: real, second: real)
    ensures var (c, inputs) := Channelled(first, second);
            var settles := SettlesAt(c, inputs, [0, 1], 2);
            settles.Some? && RegionsAfter(c, inputs, [0, 1], settles.value) == [OnIf(first >= 1.0)]
  {
    var (c, inputs) := Channelled(first, second);
    hide WantedAt, SettlesAt, RegionsAfter;
    ChannelledRegion(first, second, Off);
    ChannelledRegion(first, second, OnIf(first >= 1.0));
    SettlesByOne(c, inputs, [0, 1], OnIf(first >= 1.0));
  }

  lemma ChannelledRuns(first: real, second: real)
    ensures var (c, inputs) := Channelled(first, second);
            SolutionOf(c, inputs, [0, 1]).regions == [OnIf(first >= 1.0)]
  {
    var (c, inputs) := Channelled(first, second);
    ChannelledResolved(first, second);
    ChannelledSettles(first, second);
    SolutionParts(c, inputs, [0, 1]);
    hide Resolve, ElementCount, SolutionOf, StatesOf, BranchCurrents, SettlesAt, RegionsAfter;
  }
}
