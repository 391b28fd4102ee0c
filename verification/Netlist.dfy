/** A netlist export taken out of its s-expression: components, nets and the pins on them. */
module Netlist {
  import opened Options
  import opened Sexp
  import opened SexpText
  import opened Spaces

  datatype ComponentDecl = ComponentDecl(
    reference: string, value: string, footprint: string, lib: string, part: string, sheetpath: string, dnp: bool,
    mpn: Option<string>)

  datatype NodeDecl = NodeDecl(reference: string, pin: string, pinfunction: Option<string>, pintype: Option<string>)

  datatype NetDecl = NetDecl(code: string, name: string, nodes: seq<NodeDecl>)

  datatype ParsedNetlist = ParsedNetlist(version: string, components: seq<ComponentDecl>, nets: seq<NetDecl>)

  datatype NetlistError =
    | UnsupportedVersion(found: string)
    | BadSyntax(fault: Fault)
    | NotAnExport
    | MissingVersion
    | ComponentWithoutRef
    | NetWithoutCode
    | NodeWithoutRef
    | NodeWithoutPin

  datatype Result<+T> = Ok(value: T) | Err(error: NetlistError)

  const SUPPORTED_VERSIONS: seq<string> := ["E"]

  // ----- looking into a tree -----

  function Head(s: Sexp): Option<string> {
    if s.List? && |s.items| > 0 && s.items[0].Atom? then Some(s.items[0].text) else None
  }

  /** What a look at the children demands: the slice past the head is out of range on an empty list. */
  predicate Sliceable(s: Sexp) {
    s.List? ==> |s.items| > 0
  }

  function Headed(items: seq<Sexp>, name: string): (found: seq<Sexp>)
    ensures forall k :: 0 <= k < |found| ==> Head(found[k]) == Some(name) && Sliceable(found[k])
  {
    if |items| == 0 then []
    else (if Head(items[0]) == Some(name) then [items[0]] else []) + Headed(items[1..], name)
  }

  function Children(s: Sexp, name: string): (found: seq<Sexp>)
    requires Sliceable(s)
    ensures forall k :: 0 <= k < |found| ==> Head(found[k]) == Some(name) && Sliceable(found[k])
  {
    if s.List? then Headed(s.items[1..], name) else []
  }

  function Child(s: Sexp, name: string): (found: Option<Sexp>)
    requires Sliceable(s)
    ensures found.Some? ==> Head(found.value) == Some(name) && Sliceable(found.value)
  {
    var all := Children(s, name);
    if |all| > 0 then Some(all[0]) else None
  }

  function Arg(s: Sexp): Option<string> {
    if s.List? && |s.items| > 1 && s.items[1].Atom? then Some(s.items[1].text) else None
  }

  function ChildArg(s: Sexp, name: string): Option<string>
    requires Sliceable(s)
  {
    var child := Child(s, name);
    if child.Some? then Arg(child.value) else None
  }

  /** The last atom of a list that has more than its head. */
  function TrailingArg(s: Sexp): Option<string> {
    if s.List? && |s.items| > 1 && s.items[|s.items| - 1].Atom? then Some(s.items[|s.items| - 1].text) else None
  }

  // ----- what each form declares -----

  function Lower(c: char): char {
    if 'A' <= c <= 'Z' then c - 'A' + 'a' else c
  }

  predicate SameIgnoringCase(a: string, b: string) {
    |a| == |b| && forall k :: 0 <= k < |a| ==> Lower(a[k]) == Lower(b[k])
  }

  predicate NamesDnp(property: Sexp)
    requires Sliceable(property)
  {
    var name := ChildArg(property, "name");
    name.Some? && SameIgnoringCase(name.value, "dnp")
  }

  const MPN_FIELD_NAMES: seq<string> := ["Manufacturer_Part_Number", "Manufacturer Part Number", "MPN"]

  predicate NamesPart(form: Sexp)
    requires Sliceable(form)
  {
    var name := ChildArg(form, "name");
    name.Some? && exists k :: 0 <= k < |MPN_FIELD_NAMES| && SameIgnoringCase(name.value, MPN_FIELD_NAMES[k])
  }

  /** The first form that names a part number. */
  function FirstPart(forms: seq<Sexp>): (form: Option<Sexp>)
    requires forall k :: 0 <= k < |forms| ==> Sliceable(forms[k])
    ensures form.Some? ==> form.value in forms && Sliceable(form.value) && NamesPart(form.value)
    ensures form.None? <==> forall k :: 0 <= k < |forms| ==> !NamesPart(forms[k])
  {
    if |forms| == 0 then None
    else if NamesPart(forms[0]) then Some(forms[0])
    else FirstPart(forms[1..])
  }

  function PropertyPart(comp: Sexp): Option<string>
    requires Sliceable(comp)
  {
    var property := FirstPart(Children(comp, "property"));
    if property.Some? then ChildArg(property.value, "value") else None
  }

  function FieldPart(comp: Sexp): Option<string>
    requires Sliceable(comp)
  {
    var fields := Child(comp, "fields");
    if fields.None? then None
    else
      var field := FirstPart(Children(fields.value, "field"));
      if field.Some? then TrailingArg(field.value) else None
  }

  /** A property's value before an older export's field, trimmed, and none rather than an empty one. */
  function PartOf(comp: Sexp): (mpn: Option<string>)
    requires Sliceable(comp)
    ensures mpn.Some? ==> mpn.value != "" && Trim(mpn.value) == mpn.value
  {
    var found := if PropertyPart(comp).Some? then PropertyPart(comp) else FieldPart(comp);
    if found.None? || Trim(found.value) == "" then None
    else
      TrimmedIsTrimmed(found.value);
      Some(Trim(found.value))
  }

  function ComponentOf(comp: Sexp): Result<ComponentDecl>
    requires Sliceable(comp)
  {
    var reference := ChildArg(comp, "ref");
    if reference.None? then Err(ComponentWithoutRef)
    else
      var libsource, sheetpath, properties := Child(comp, "libsource"), Child(comp, "sheetpath"),
                                              Children(comp, "property");
      Ok(ComponentDecl(
        reference.value, ChildArg(comp, "value").GetOr(""), ChildArg(comp, "footprint").GetOr(""),
        if libsource.Some? then ChildArg(libsource.value, "lib").GetOr("") else "",
        if libsource.Some? then ChildArg(libsource.value, "part").GetOr("") else "",
        if sheetpath.Some? then ChildArg(sheetpath.value, "names").GetOr("/") else "/",
        exists k :: 0 <= k < |properties| && NamesDnp(properties[k]),
        PartOf(comp)))
  }

  function NodeOf(node: Sexp): Result<NodeDecl>
    requires Sliceable(node)
  {
    var reference, pin := ChildArg(node, "ref"), ChildArg(node, "pin");
    if reference.None? then Err(NodeWithoutRef)
    else if pin.None? then Err(NodeWithoutPin)
    else Ok(NodeDecl(reference.value, pin.value, ChildArg(node, "pinfunction"), ChildArg(node, "pintype")))
  }

  /** Each form in turn, up to the first that is wrong. */
  function Gathered<T>(forms: seq<Sexp>, declares: Sexp --> Result<T>): Result<seq<T>>
    requires forall k :: 0 <= k < |forms| ==> declares.requires(forms[k])
  {
    if |forms| == 0 then Ok([])
    else
      match Gathered(forms[..|forms| - 1], declares)
      case Err(e) => Err(e)
      case Ok(before) =>
        match declares(forms[|forms| - 1])
        case Err(e) => Err(e)
        case Ok(last) => Ok(before + [last])
  }

  function NetOf(net: Sexp): Result<NetDecl>
    requires Sliceable(net)
  {
    var code := ChildArg(net, "code");
    if code.None? then Err(NetWithoutCode)
    else
      match Gathered(Children(net, "node"), NodeOf)
      case Err(e) => Err(e)
      case Ok(nodes) => Ok(NetDecl(code.value, ChildArg(net, "name").GetOr(""), nodes))
  }

  function Under(root: Sexp, section: string, name: string): (found: seq<Sexp>)
    requires Sliceable(root)
    ensures forall k :: 0 <= k < |found| ==> Sliceable(found[k])
  {
    var under := Child(root, section);
    if under.Some? then Children(under.value, name) else []
  }

  function NetlistOf(root: Sexp): Result<ParsedNetlist> {
    if Head(root) != Some("export") then Err(NotAnExport)
    else
      var version := ChildArg(root, "version");
      if version.None? then Err(MissingVersion)
      else if version.value !in SUPPORTED_VERSIONS then Err(UnsupportedVersion(version.value))
      else
        match Gathered(Under(root, "components", "comp"), ComponentOf)
        case Err(e) => Err(e)
        case Ok(components) =>
          match Gathered(Under(root, "nets", "net"), NetOf)
          case Err(e) => Err(e)
          case Ok(nets) => Ok(ParsedNetlist(version.value, components, nets))
  }

  // ----- the extraction -----

  method ParseNet(net: Sexp) returns (r: Result<NetDecl>)
    requires Sliceable(net)
    ensures r == NetOf(net)
  {
    hide NodeOf, ChildArg, Children;
    var code := ChildArg(net, "code");
    if code.None? {
      return Err(NetWithoutCode);
    }
    var name := ChildArg(net, "name").GetOr("");
    var forms := Children(net, "node");
    var nodes := [];
    for k := 0 to |forms|
      invariant Gathered(forms[..k], NodeOf) == Ok(nodes)
    {
      assert forms[..k + 1][..k] == forms[..k];
      var node := NodeOf(forms[k]);
      if node.Err? {
        FirstWrong(forms, NodeOf, k + 1);
        return Err(node.error);
      }
      nodes := nodes + [node.value];
    }
    assert forms[..|forms|] == forms;
    r := Ok(NetDecl(code.value, name, nodes));
  }

  method Parse(input: string) returns (r: Result<ParsedNetlist>)
    ensures r == match ListOf(input) case Malformed(fault) => Err(BadSyntax(fault))
            case Parsed(root, _) => NetlistOf(root)
  {
    hide ChildArg, Under, Gathered, ListOf;
    var parsed := ParseSexp(input);
    if parsed.Malformed? {
      return Err(BadSyntax(parsed.fault));
    }
    var root := parsed.value;
    if Head(root) != Some("export") {
      return Err(NotAnExport);
    }
    var version := ChildArg(root, "version");
    if version.None? {
      return Err(MissingVersion);
    }
    if version.value !in SUPPORTED_VERSIONS {
      return Err(UnsupportedVersion(version.value));
    }
    var components, nets;
    components := ParseComponents(Under(root, "components", "comp"));
    if components.Err? {
      return Err(components.error);
    }
    nets := ParseNets(Under(root, "nets", "net"));
    if nets.Err? {
      return Err(nets.error);
    }
    r := Ok(ParsedNetlist(version.value, components.value, nets.value));
  }

  method ParseComponents(forms: seq<Sexp>) returns (r: Result<seq<ComponentDecl>>)
    requires forall k :: 0 <= k < |forms| ==> Sliceable(forms[k])
    ensures r == Gathered(forms, ComponentOf)
  {
    hide ComponentOf;
    var components := [];
    for k := 0 to |forms|
      invariant Gathered(forms[..k], ComponentOf) == Ok(components)
    {
      assert forms[..k + 1][..k] == forms[..k];
      var component := ComponentOf(forms[k]);
      if component.Err? {
        FirstWrong(forms, ComponentOf, k + 1);
        return Err(component.error);
      }
      components := components + [component.value];
    }
    assert forms[..|forms|] == forms;
    r := Ok(components);
  }

  method ParseNets(forms: seq<Sexp>) returns (r: Result<seq<NetDecl>>)
    requires forall k :: 0 <= k < |forms| ==> Sliceable(forms[k])
    ensures r == Gathered(forms, NetOf)
  {
    hide NetOf;
    var nets := [];
    for k := 0 to |forms|
      invariant Gathered(forms[..k], NetOf) == Ok(nets)
    {
      assert forms[..k + 1][..k] == forms[..k];
      var net := ParseNet(forms[k]);
      if net.Err? {
        FirstWrong(forms, NetOf, k + 1);
        return Err(net.error);
      }
      nets := nets + [net.value];
    }
    assert forms[..|forms|] == forms;
    r := Ok(nets);
  }

  /** A wrong form is where the gathering stops. */
  lemma {:induction false} FirstWrong<T>(forms: seq<Sexp>, declares: Sexp --> Result<T>, n: nat)
    requires n <= |forms| && forall k :: 0 <= k < |forms| ==> declares.requires(forms[k])
    requires Gathered(forms[..n], declares).Err?
    ensures Gathered(forms, declares) == Gathered(forms[..n], declares)
    decreases |forms|
  {
    if n == |forms| {
      assert forms[..n] == forms;
    } else {
      var less := forms[..|forms| - 1];
      assert less[..n] == forms[..n];
      FirstWrong(less, declares, n);
    }
  }

  // ----- what a look finds -----

  /** `found` is the items with that head, all of them, in order: those at the positions `at`. */
  ghost predicate Finds(items: seq<Sexp>, name: string, found: seq<Sexp>, at: seq<nat>) {
    && |at| == |found|
    && (forall i, j :: 0 <= i < j < |at| ==> at[i] < at[j])
    && (forall k :: 0 <= k < |at| ==> at[k] < |items| && found[k] == items[at[k]])
    && (forall k: nat :: k in at <==> k < |items| && Head(items[k]) == Some(name))
  }

  lemma FindsMore(items: seq<Sexp>, x: Sexp, name: string, found: seq<Sexp>, at: seq<nat>)
    requires Finds(items, name, found, at)
    ensures Head(x) == Some(name) ==> Finds(items + [x], name, found + [x], at + [|items|])
    ensures Head(x) != Some(name) ==> Finds(items + [x], name, found, at)
  {
    hide Head;
    var more := items + [x];
    assert forall k :: 0 <= k < |items| ==> more[k] == items[k];
    assert more[|items|] == x;
  }

  lemma {:induction false} HeadedFinds(items: seq<Sexp>, name: string) returns (at: seq<nat>)
    ensures Finds(items, name, Headed(items, name), at)
  {
    if |items| == 0 {
      at := [];
    } else {
      hide Head, Headed, Finds;
      var before, x := items[..|items| - 1], items[|items| - 1];
      at := HeadedFinds(before, name);
      assert items == before + [x];
      HeadedJoin(before, [x], name);
      FindsMore(before, x, name, Headed(before, name), at);
      if Head(x) == Some(name) {
        HeadedAll([x], name);
        at := at + [|before|];
      } else {
        HeadedNone([x], name);
        assert Headed(before, name) + [] == Headed(before, name);
      }
    }
  }

  /** The children found are all those past the head that have the name, in their order, and no others. */
  lemma ChildrenInOrder(s: Sexp, name: string) returns (at: seq<nat>)
    requires s.List? && |s.items| > 0
    ensures Finds(s.items[1..], name, Children(s, name), at)
  {
    at := HeadedFinds(s.items[1..], name);
  }

  /** The child found is the first past the head that has the name, and none is found exactly when none has it. */
  lemma ChildIsFirst(s: Sexp, name: string)
    requires Sliceable(s)
    ensures Child(s, name).None? <==> (s.List? ==> forall k :: 0 < k < |s.items| ==> Head(s.items[k]) != Some(name))
    ensures Child(s, name).Some? ==>
              && s.List?
              && exists k ::
                   0 < k < |s.items| && Child(s, name) == Some(s.items[k]) && Head(s.items[k]) == Some(name) &&
                             forall j :: 0 < j < k ==> Head(s.items[j]) != Some(name)
  {
    if s.List? {
      if forall k :: 0 < k < |s.items| ==> Head(s.items[k]) != Some(name) {
        NoChild(s, name);
      } else {
        var k := FirstNamed(s, name, 1);
        FirstChild(s, name, k);
      }
    }
  }

  lemma FirstNamed(s: Sexp, name: string, start: nat) returns (k: nat)
    requires s.List? && 0 < start <= |s.items| && forall j :: 0 < j < start ==> Head(s.items[j]) != Some(name)
    requires exists k :: 0 < k < |s.items| && Head(s.items[k]) == Some(name)
    ensures start <= k < |s.items| && Head(s.items[k]) == Some(name)
    ensures forall j :: 0 < j < k ==> Head(s.items[j]) != Some(name)
    decreases |s.items| - start
  {
    if Head(s.items[start]) == Some(name) {
      k := start;
    } else {
      k := FirstNamed(s, name, start + 1);
    }
  }

  // ----- forms nobody asks for -----

  lemma {:induction false} HeadedJoin(a: seq<Sexp>, b: seq<Sexp>, name: string)
    ensures Headed(a + b, name) == Headed(a, name) + Headed(b, name)
  {
    if |a| == 0 {
      assert a + b == b;
    } else {
      assert (a + b)[1..] == a[1..] + b;
      HeadedJoin(a[1..], b, name);
    }
  }

  lemma {:induction false} HeadedNone(items: seq<Sexp>, name: string)
    requires forall k :: 0 <= k < |items| ==> Head(items[k]) != Some(name)
    ensures Headed(items, name) == []
  {
    if |items| > 0 {
      HeadedNone(items[1..], name);
    }
  }

  lemma {:induction false} HeadedAll(items: seq<Sexp>, name: string)
    requires forall k :: 0 <= k < |items| ==> Head(items[k]) == Some(name)
    ensures Headed(items, name) == items
  {
    if |items| > 0 {
      HeadedAll(items[1..], name);
    }
  }

  lemma InsertedUnseen(before: seq<Sexp>, extra: Sexp, after: seq<Sexp>, name: string)
    requires |before| > 0 && Head(extra) != Some(name)
    ensures Children(List(before + [extra] + after), name) == Children(List(before + after), name)
  {
    assert (before + [extra] + after)[1..] == before[1..] + ([extra] + after) &&
           (before + after)[1..] == before[1..] + after;
    HeadedJoin(before[1..], [extra] + after, name);
    HeadedJoin([extra], after, name);
    HeadedNone([extra], name);
    HeadedJoin(before[1..], after, name);
  }

  /**
   * A section of an export that is not its version, its components or its nets declares nothing, wherever it stands.
   */
  lemma IgnoredSection(before: seq<Sexp>, extra: Sexp, after: seq<Sexp>)
    requires |before| > 0
    requires Head(extra) != Some("version") && Head(extra) != Some("components") && Head(extra) != Some("nets")
    ensures NetlistOf(List(before + [extra] + after)) == NetlistOf(List(before + after))
  {
    InsertedUnseen(before, extra, after, "version");
    InsertedUnseen(before, extra, after, "components");
    InsertedUnseen(before, extra, after, "nets");
    hide ComponentOf, NetOf, Children, Gathered;
  }

  // ----- what is refused, and what absent fields read as -----

  /** A gathering is refused exactly when one of its forms is, and by the first that is. */
  lemma {:induction false} GatheredRefused<T>(forms: seq<Sexp>, declares: Sexp --> Result<T>)
    requires forall k :: 0 <= k < |forms| ==> declares.requires(forms[k])
    ensures Gathered(forms, declares).Ok? <==> forall k :: 0 <= k < |forms| ==> declares(forms[k]).Ok?
    ensures Gathered(forms, declares).Err? ==>
              exists k :: 0 <= k < |forms| && declares(forms[k]) == Err(Gathered(forms, declares).error) &&
                          forall j :: 0 <= j < k ==> declares(forms[j]).Ok?
  {
    if |forms| > 0 {
      var last := |forms| - 1;
      var before := forms[..last];
      GatheredRefused(before, declares);
      if Gathered(before, declares).Err? {
        var k :| 0 <= k < |before| && declares(before[k]) == Err(Gathered(before, declares).error) &&
                 forall j :: 0 <= j < k ==> declares(before[j]).Ok?;
        assert declares(forms[k]) == Err(Gathered(forms, declares).error);
        forall j | 0 <= j < k ensures declares(forms[j]).Ok? {
          assert before[j] == forms[j];
        }
      } else {
        forall j | 0 <= j < last ensures declares(forms[j]).Ok? {
          assert before[j] == forms[j];
        }
      }
    }
  }

  /** A net is whole when it has a code and each of its nodes a part and a pin. */
  ghost predicate WholeNet(net: Sexp)
    requires Sliceable(net)
  {
    && ChildArg(net, "code").Some?
    && forall k :: 0 <= k < |Children(net, "node")| ==>
         ChildArg(Children(net, "node")[k], "ref").Some? && ChildArg(Children(net, "node")[k], "pin").Some?
  }

  lemma NetRefused(net: Sexp)
    requires Sliceable(net)
    ensures NetOf(net).Ok? <==> WholeNet(net)
    ensures NetOf(net).Err? ==>
              NetOf(net).error == NetWithoutCode || NetOf(net).error == NodeWithoutRef ||
              NetOf(net).error == NodeWithoutPin
  {
    hide ChildArg, Children, Gathered;
    GatheredRefused(Children(net, "node"), NodeOf);
  }

  lemma ComponentRefused(comp: Sexp)
    requires Sliceable(comp)
    ensures ComponentOf(comp).Ok? <==> ChildArg(comp, "ref").Some?
    ensures ComponentOf(comp).Err? ==> ComponentOf(comp).error == ComponentWithoutRef
  {
    hide ChildArg, Children, Child, PartOf, NamesDnp;
  }

  /**
   * A tree is a netlist exactly when it is an export of version "E" whose components all have a reference and whose
   * nets are all whole. Any other version is refused by its own name, an export without one for that, and what is no
   * export at all for that.
   */
  lemma ReadExactlyWhen(root: Sexp)
    ensures NetlistOf(root).Ok? <==>
              && Head(root) == Some("export") && ChildArg(root, "version") == Some("E")
              && (forall k :: 0 <= k < |Under(root, "components", "comp")| ==>
                    ChildArg(Under(root, "components", "comp")[k], "ref").Some?)
              && (forall k :: 0 <= k < |Under(root, "nets", "net")| ==> WholeNet(Under(root, "nets", "net")[k]))
    ensures NetlistOf(root) == Err(NotAnExport) <==> Head(root) != Some("export")
    ensures Head(root) == Some("export") ==>
              && (NetlistOf(root) == Err(MissingVersion) <==> ChildArg(root, "version").None?)
              && (forall v :: NetlistOf(root) == Err(UnsupportedVersion(v)) <==>
                                ChildArg(root, "version") == Some(v) && v != "E")
  {
    hide ChildArg, Gathered, Under, WholeNet, ComponentOf, NetOf;
    if Head(root) == Some("export") {
      var (comps, nets) := (Under(root, "components", "comp"), Under(root, "nets", "net"));
      GatheredRefused(comps, ComponentOf);
      GatheredRefused(nets, NetOf);
      forall k | 0 <= k < |comps|
        ensures ComponentOf(comps[k]).Ok? <==> ChildArg(comps[k], "ref").Some?
        ensures ComponentOf(comps[k]).Err? ==> ComponentOf(comps[k]).error == ComponentWithoutRef
      {
        ComponentRefused(comps[k]);
      }
      forall k | 0 <= k < |nets|
        ensures NetOf(nets[k]).Ok? <==> WholeNet(nets[k])
        ensures NetOf(nets[k]).Err? ==>
                  NetOf(nets[k]).error == NetWithoutCode || NetOf(nets[k]).error == NodeWithoutRef ||
                  NetOf(nets[k]).error == NodeWithoutPin
      {
        NetRefused(nets[k]);
      }
    }
  }

  // ----- writing a netlist down -----

  function Field(name: string, value: string): Sexp {
    List([Atom(name), Atom(value)])
  }

  function FieldIf(name: string, value: Option<string>): seq<Sexp> {
    if value.Some? then [Field(name, value.value)] else []
  }

  function NodeForm(n: NodeDecl): Sexp {
    List([Atom("node"), Field("ref", n.reference), Field("pin", n.pin)] +
         FieldIf("pinfunction", n.pinfunction) + FieldIf("pintype", n.pintype))
  }

  function NetForm(n: NetDecl): Sexp {
    List([Atom("net"), Field("code", n.code), Field("name", n.name)] +
         seq(|n.nodes|, k requires 0 <= k < |n.nodes| => NodeForm(n.nodes[k])))
  }

  /** A part number as newer exports write it, a property; or as older ones do, a field. */
  function PartForm(mpn: string, older: bool): Sexp {
    if older then List([Atom("fields"), List([Atom("field"), Field("name", "MPN"), Atom(mpn)])])
    else List([Atom("property"), Field("name", "MPN"), Field("value", mpn)])
  }

  function PlainForms(c: ComponentDecl): seq<Sexp> {
    [Field("ref", c.reference), Field("value", c.value), Field("footprint", c.footprint),
     List([Atom("libsource"), Field("lib", c.lib), Field("part", c.part)]),
     List([Atom("sheetpath"), Field("names", c.sheetpath)])]
  }

  function ComponentForm(c: ComponentDecl, older: bool): Sexp {
    List([Atom("comp")] + PlainForms(c) +
         (if c.dnp then [List([Atom("property"), Field("name", "dnp")])] else []) +
         (if c.mpn.Some? then [PartForm(c.mpn.value, older)] else []))
  }

  function ComponentForms(components: seq<ComponentDecl>, older: bool): (forms: seq<Sexp>)
    ensures |forms| == |components|
  {
    seq(|components|, k requires 0 <= k < |components| => ComponentForm(components[k], older))
  }

  function NetForms(nets: seq<NetDecl>): (forms: seq<Sexp>)
    ensures |forms| == |nets|
  {
    seq(|nets|, k requires 0 <= k < |nets| => NetForm(nets[k]))
  }

  function ExportForm(n: ParsedNetlist, older: bool): Sexp {
    List([Atom("export"), Field("version", n.version), List([Atom("components")] + ComponentForms(n.components, older)),
          List([Atom("nets")] + NetForms(n.nets))])
  }

  /** What a component can be written down with: a part number, where it has one, that trimming leaves alone. */
  predicate Writable(c: ComponentDecl) {
    c.mpn.Some? ==> c.mpn.value != "" && Trim(c.mpn.value) == c.mpn.value
  }

  /** The first child of a name, found past any others. */
  lemma FirstChild(s: Sexp, name: string, k: nat)
    requires s.List? && 0 < k < |s.items| && Head(s.items[k]) == Some(name)
    requires forall j :: 0 < j < k ==> Head(s.items[j]) != Some(name)
    ensures Child(s, name) == Some(s.items[k])
  {
    var items := s.items[1..];
    assert items == items[..k - 1] + items[k - 1..];
    HeadedJoin(items[..k - 1], items[k - 1..], name);
    HeadedNone(items[..k - 1], name);
  }

  lemma NoChild(s: Sexp, name: string)
    requires s.List? && |s.items| > 0 && forall j :: 0 < j < |s.items| ==> Head(s.items[j]) != Some(name)
    ensures Children(s, name) == [] && Child(s, name) == None
  {
    HeadedNone(s.items[1..], name);
  }

  lemma {:induction false} GatheredAll<T>(forms: seq<Sexp>, values: seq<T>, declares: Sexp --> Result<T>)
    requires |forms| == |values|
    requires forall k :: 0 <= k < |forms| ==> declares.requires(forms[k]) && declares(forms[k]) == Ok(values[k])
    ensures Gathered(forms, declares) == Ok(values)
  {
    if |forms| > 0 {
      GatheredAll(forms[..|forms| - 1], values[..|forms| - 1], declares);
      assert values == values[..|forms| - 1] + [values[|forms| - 1]];
    }
  }

  lemma FieldRead(s: Sexp, name: string, value: string, k: nat)
    requires s.List? && 0 < k < |s.items| && s.items[k] == Field(name, value)
    requires forall j :: 0 < j < k ==> Head(s.items[j]) != Some(name)
    ensures ChildArg(s, name) == Some(value)
  {
    FirstChild(s, name, k);
  }

  lemma FieldAbsent(s: Sexp, name: string)
    requires s.List? && |s.items| > 0 && forall j :: 0 < j < |s.items| ==> Head(s.items[j]) != Some(name)
    ensures ChildArg(s, name) == None
  {
    NoChild(s, name);
  }

  lemma NodeReadBack(n: NodeDecl)
    ensures Sliceable(NodeForm(n)) && NodeOf(NodeForm(n)) == Ok(n)
  {
    hide ChildArg;
    var s := NodeForm(n);
    FieldRead(s, "ref", n.reference, 1);
    FieldRead(s, "pin", n.pin, 2);
    if n.pinfunction.Some? {
      FieldRead(s, "pinfunction", n.pinfunction.value, 3);
    } else {
      FieldAbsent(s, "pinfunction");
    }
    if n.pintype.Some? {
      FieldRead(s, "pintype", n.pintype.value, |s.items| - 1);
    } else {
      FieldAbsent(s, "pintype");
    }
  }

  lemma NetNodes(n: NetDecl)
    ensures Sliceable(NetForm(n)) &&
            Children(NetForm(n), "node") == seq(|n.nodes|, k requires 0 <= k < |n.nodes| => NodeForm(n.nodes[k]))
  {
    hide Headed;
    var forms := seq(|n.nodes|, k requires 0 <= k < |n.nodes| => NodeForm(n.nodes[k]));
    var fields := [Field("code", n.code), Field("name", n.name)];
    assert NetForm(n).items[1..] == fields + forms;
    HeadedJoin(fields, forms, "node");
    HeadedNone(fields, "node");
    HeadedAll(forms, "node");
  }

  lemma NetReadBack(n: NetDecl)
    ensures Sliceable(NetForm(n)) && NetOf(NetForm(n)) == Ok(n)
  {
    hide ChildArg, Children, Headed, NodeOf, NodeForm, Gathered;
    var s := NetForm(n);
    FieldRead(s, "code", n.code, 1);
    FieldRead(s, "name", n.name, 2);
    NetNodes(n);
    var forms := Children(s, "node");
    forall k | 0 <= k < |forms| ensures NodeOf.requires(forms[k]) && NodeOf(forms[k]) == Ok(n.nodes[k]) {
      NodeReadBack(n.nodes[k]);
    }
    GatheredAll(forms, n.nodes, NodeOf);
  }

  lemma FirstPartSkips(forms: seq<Sexp>, form: Sexp)
    requires forall k :: 0 <= k < |forms| ==> Sliceable(forms[k]) && !NamesPart(forms[k])
    requires Sliceable(form) && NamesPart(form)
    ensures FirstPart(forms + [form]) == Some(form)
  {
    hide NamesPart;
    if |forms| > 0 {
      assert (forms + [form])[1..] == forms[1..] + [form];
      FirstPartSkips(forms[1..], form);
    }
  }

  /** The properties written: the not-placed mark, then the part number of a newer export. */
  function PropertyForms(c: ComponentDecl, older: bool): seq<Sexp> {
    (if c.dnp then [List([Atom("property"), Field("name", "dnp")])] else []) +
    (if c.mpn.Some? && !older then [PartForm(c.mpn.value, older)] else [])
  }

  lemma PropertiesRead(c: ComponentDecl, older: bool)
    ensures Sliceable(ComponentForm(c, older))
    ensures Children(ComponentForm(c, older), "property") == PropertyForms(c, older)
  {
    hide Headed, Head, PartForm;
    var dnp := if c.dnp then [List([Atom("property"), Field("name", "dnp")])] else [];
    var mpn := if c.mpn.Some? then [PartForm(c.mpn.value, older)] else [];
    assert ComponentForm(c, older).items[1..] == PlainForms(c) + (dnp + mpn);
    HeadedJoin(PlainForms(c), dnp + mpn, "property");
    HeadedJoin(dnp, mpn, "property");
    FormHeads(c, older);
    HeadedNone(PlainForms(c), "property");
    HeadedAll(dnp, "property");
    if older {
      HeadedNone(mpn, "property");
    } else {
      HeadedAll(mpn, "property");
    }
  }

  lemma FormHeads(c: ComponentDecl, older: bool)
    ensures Head(List([Atom("property"), Field("name", "dnp")])) == Some("property")
    ensures c.mpn.Some? ==> (Head(PartForm(c.mpn.value, older)) == Some("property") <==> !older)
    ensures forall k :: 0 <= k < |PlainForms(c)| ==> Head(PlainForms(c)[k]) != Some("property")
  {
    assert |"fields"| != |"property"| && |"libsource"| != |"property"| && |"sheetpath"| != |"property"|;
    assert |"ref"| != |"property"| && |"value"| != |"property"| && |"footprint"| != |"property"|;
  }

  lemma MarkNames()
    ensures var dnp := List([Atom("property"), Field("name", "dnp")]); NamesDnp(dnp) && !NamesPart(dnp)
  {
    var dnp := List([Atom("property"), Field("name", "dnp")]);
    FieldRead(dnp, "name", "dnp", 1);
    NotOneName();
    hide ChildArg, SameIgnoringCase;
  }

  lemma NotOneName()
    ensures SameIgnoringCase("dnp", "dnp") && !SameIgnoringCase("MPN", "dnp") &&
            SameIgnoringCase("MPN", MPN_FIELD_NAMES[2])
    ensures forall k :: 0 <= k < |MPN_FIELD_NAMES| ==> !SameIgnoringCase("dnp", MPN_FIELD_NAMES[k])
  {
    assert |"dnp"| == 3 && "dnp"[0] == 'd' && "MPN"[0] == 'M';
  }

  lemma PartNames(mpn: string)
    ensures var form := PartForm(mpn, false);
            && Sliceable(form)
            && !NamesDnp(form) && NamesPart(form) && ChildArg(form, "value") == Some(mpn)
  {
    var form := PartForm(mpn, false);
    FieldRead(form, "name", "MPN", 1);
    FieldRead(form, "value", mpn, 2);
    NotOneName();
    hide ChildArg, SameIgnoringCase;
  }

  lemma OlderPartNames(mpn: string)
    ensures var form := PartForm(mpn, true);
            Children(form, "field") == [form.items[1]] && NamesPart(form.items[1]) &&
            TrailingArg(form.items[1]) == Some(mpn)
  {
    var form := PartForm(mpn, true);
    HeadedAll(form.items[1..], "field");
    FieldRead(form.items[1], "name", "MPN", 1);
    NotOneName();
    hide ChildArg, Headed, SameIgnoringCase;
  }

  lemma DnpReadBack(c: ComponentDecl, older: bool)
    ensures Sliceable(ComponentForm(c, older))
    ensures var found := Children(ComponentForm(c, older), "property");
            (exists k :: 0 <= k < |found| && NamesDnp(found[k])) <==> c.dnp
  {
    PropertiesRead(c, older);
    MarkNames();
    if c.mpn.Some? {
      PartNames(c.mpn.value);
    }
    hide NamesDnp, Children;
    if c.dnp {
      assert NamesDnp(PropertyForms(c, older)[0]);
    }
  }

  lemma PropertyRead(c: ComponentDecl, older: bool)
    ensures Sliceable(ComponentForm(c, older))
    ensures PropertyPart(ComponentForm(c, older)) == if older then None else c.mpn
  {
    PropertiesRead(c, older);
    MarkNames();
    hide NamesPart, Children, ChildArg, ComponentForm, PartForm;
    if c.mpn.Some? && !older {
      var before := if c.dnp then [List([Atom("property"), Field("name", "dnp")])] else [];
      assert PropertyForms(c, older) == before + [PartForm(c.mpn.value, older)];
      PartNames(c.mpn.value);
      FirstPartSkips(before, PartForm(c.mpn.value, older));
    }
  }

  lemma FieldsRead(c: ComponentDecl, older: bool)
    ensures Sliceable(ComponentForm(c, older))
    ensures FieldPart(ComponentForm(c, older)) == if older then c.mpn else None
  {
    var s := ComponentForm(c, older);
    hide NamesPart, Children, Child, ChildArg, TrailingArg;
    if c.mpn.Some? && older {
      OlderPartNames(c.mpn.value);
      FirstChild(s, "fields", |s.items| - 1);
    } else {
      NoChild(s, "fields");
    }
  }

  lemma PartReadBack(c: ComponentDecl, older: bool)
    requires Writable(c)
    ensures Sliceable(ComponentForm(c, older)) && PartOf(ComponentForm(c, older)) == c.mpn
  {
    hide PropertyPart, FieldPart, ComponentForm, Trim;
    PropertyRead(c, older);
    FieldsRead(c, older);
  }

  /** A component is read back from its own form, newer or older, the not-placed mark and the part number included. */
  lemma ComponentReadBack(c: ComponentDecl, older: bool)
    requires Writable(c)
    ensures Sliceable(ComponentForm(c, older)) && ComponentOf(ComponentForm(c, older)) == Ok(c)
  {
    hide ChildArg, Child, Children, Headed, NamesDnp, PartOf;
    var s := ComponentForm(c, older);
    FieldRead(s, "ref", c.reference, 1);
    FieldRead(s, "value", c.value, 2);
    FieldRead(s, "footprint", c.footprint, 3);
    FirstChild(s, "libsource", 4);
    FieldRead(s.items[4], "lib", c.lib, 1);
    FieldRead(s.items[4], "part", c.part, 2);
    FirstChild(s, "sheetpath", 5);
    FieldRead(s.items[5], "names", c.sheetpath, 1);
    DnpReadBack(c, older);
    PartReadBack(c, older);
  }

  lemma SectionsReadBack(n: ParsedNetlist, older: bool)
    ensures var s := ExportForm(n, older);
            && Sliceable(s) && ChildArg(s, "version") == Some(n.version)
            && Under(s, "components", "comp") == ComponentForms(n.components, older)
            && Under(s, "nets", "net") == NetForms(n.nets)
  {
    hide Child, Headed;
    var s := ExportForm(n, older);
    FieldRead(s, "version", n.version, 1);
    FirstChild(s, "components", 2);
    FirstChild(s, "nets", 3);
    assert s.items[2].items[1..] == ComponentForms(n.components, older) && s.items[3].items[1..] == NetForms(n.nets);
    HeadedAll(s.items[2].items[1..], "comp");
    HeadedAll(s.items[3].items[1..], "net");
  }

  /** Every netlist of a supported version is read back from its own export, every byte of every name in it. */
  lemma NetlistReadBack(n: ParsedNetlist, older: bool)
    requires n.version in SUPPORTED_VERSIONS && forall c :: c in n.components ==> Writable(c)
    ensures NetlistOf(ExportForm(n, older)) == Ok(n)
    ensures ListOf(Text(Printed(ExportForm(n, older)))) == Parsed(ExportForm(n, older), "")
  {
    hide ChildArg, Under, ComponentOf, NetOf, ComponentForm, NetForm, Gathered, ListOf, Text, Printed, Writable;
    var s := ExportForm(n, older);
    SectionsReadBack(n, older);
    var comps, nets := Under(s, "components", "comp"), Under(s, "nets", "net");
    forall k | 0 <= k < |comps| ensures ComponentOf.requires(comps[k]) && ComponentOf(comps[k]) == Ok(n.components[k]) {
      ComponentReadBack(n.components[k], older);
    }
    forall k | 0 <= k < |nets| ensures NetOf.requires(nets[k]) && NetOf(nets[k]) == Ok(n.nets[k]) {
      NetReadBack(n.nets[k]);
    }
    GatheredAll(comps, n.components, ComponentOf);
    GatheredAll(nets, n.nets, NetOf);
    ParserInvertsPrinter(s, "");
    assert Text(Printed(s)) + "" == Text(Printed(s));
  }

  /** A component that has only its reference is read with nothing in its other fields, on the root sheet. */
  lemma BareComponent(reference: string)
    ensures var s := List([Atom("comp"), Field("ref", reference)]);
            Sliceable(s) && ComponentOf(s) == Ok(ComponentDecl(reference, "", "", "", "", "/", false, None))
  {
    hide Children, Child, ChildArg;
    FieldRead(List([Atom("comp"), Field("ref", reference)]), "ref", reference, 1);
    BareHasNo(reference, "value");
    BareHasNo(reference, "footprint");
    BareHasNo(reference, "libsource");
    BareHasNo(reference, "sheetpath");
    BareHasNo(reference, "property");
    BareHasNo(reference, "fields");
  }

  lemma BareHasNo(reference: string, name: string)
    requires name != "ref"
    ensures var s := List([Atom("comp"), Field("ref", reference)]);
            Sliceable(s) && Children(s, name) == [] && Child(s, name) == None && ChildArg(s, name) == None
  {
    NoChild(List([Atom("comp"), Field("ref", reference)]), name);
  }

  /** A net that has only its code has no name and no nodes. */
  lemma BareNet(code: string)
    ensures var s := List([Atom("net"), Field("code", code)]); Sliceable(s) && NetOf(s) == Ok(NetDecl(code, "", []))
  {
    var s := List([Atom("net"), Field("code", code)]);
    FieldRead(s, "code", code, 1);
    NoChild(s, "name");
    NoChild(s, "node");
    hide Children, Child, ChildArg;
  }

  /** What is left of a found part number. */
  function Kept(value: string): Option<string> {
    if Trim(value) == "" then None else Some(Trim(value))
  }

  /**
   * The first property that names a part number gives it, whatever the fields say, and none where it is blank; with no
   * such property it is the last atom of the first field that names one.
   */
  lemma PropertyFirst(comp: Sexp, k: nat, value: string)
    requires Sliceable(comp) && k < |Children(comp, "property")|
    requires NamesPart(Children(comp, "property")[k])
    requires forall j :: 0 <= j < k ==> !NamesPart(Children(comp, "property")[j])
    requires ChildArg(Children(comp, "property")[k], "value") == Some(value)
    ensures PartOf(comp) == Kept(value)
  {
    hide NamesPart, Children, ChildArg, Trim;
    FirstPartIs(Children(comp, "property"), k);
  }

  lemma FieldOtherwise(comp: Sexp, fields: Sexp, k: nat, value: string)
    requires Sliceable(comp) && Child(comp, "fields") == Some(fields) && k < |Children(fields, "field")|
    requires forall j :: 0 <= j < |Children(comp, "property")| ==> !NamesPart(Children(comp, "property")[j])
    requires NamesPart(Children(fields, "field")[k])
    requires forall j :: 0 <= j < k ==> !NamesPart(Children(fields, "field")[j])
    requires var field := Children(fields, "field")[k];
             field.List? && |field.items| > 1 && field.items[|field.items| - 1] == Atom(value)
    ensures PartOf(comp) == Kept(value)
  {
    hide NamesPart, Children, ChildArg, Child, Trim;
    FirstPartIs(Children(fields, "field"), k);
  }

  lemma {:induction false} FirstPartIs(forms: seq<Sexp>, k: nat)
    requires forall j :: 0 <= j < |forms| ==> Sliceable(forms[j])
    requires k < |forms| && NamesPart(forms[k]) && forall j :: 0 <= j < k ==> !NamesPart(forms[j])
    ensures FirstPart(forms) == Some(forms[k])
    decreases k
  {
    hide NamesPart;
    if k > 0 {
      assert !NamesPart(forms[0]);
      FirstPartIs(forms[1..], k - 1);
    }
  }

  /** The letters of the not-placed mark in either case, and no other name, are it. */
  lemma MarkSpellings(s: string)
    ensures SameIgnoringCase(s, "dnp") <==>
              |s| == 3 && (s[0] == 'd' || s[0] == 'D') && (s[1] == 'n' || s[1] == 'N') && (s[2] == 'p' || s[2] == 'P')
  {
    assert |"dnp"| == 3 && "dnp"[0] == 'd' && "dnp"[1] == 'n' && "dnp"[2] == 'p';
  }

  predicate Letter(c: char) {
    'A' <= c <= 'Z' || 'a' <= c <= 'z'
  }

  /** Only the case of ASCII letters is passed over. */
  lemma CaseIgnored(a: string, b: string)
    ensures SameIgnoringCase(a, b) <==>
              && |a| == |b|
              && forall k :: 0 <= k < |a| ==>
                   || a[k] == b[k]
                   || (Letter(a[k]) && Letter(b[k]) &&
                       (a[k] as int - b[k] as int == 32 || b[k] as int - a[k] as int == 32))
  {
  }

  function Lowered(s: string): (l: string)
    ensures |l| == |s|
  {
    seq(|s|, k requires 0 <= k < |s| => Lower(s[k]))
  }

  lemma SameLowered(a: string, b: string)
    ensures SameIgnoringCase(a, b) <==> Lowered(a) == Lowered(b)
  {
    if Lowered(a) == Lowered(b) {
      forall k | 0 <= k < |a| ensures Lower(a[k]) == Lower(b[k]) {
        assert Lowered(a)[k] == Lowered(b)[k];
      }
    }
  }

  lemma UnderscoresLowered()
    ensures Lowered("Manufacturer_Part_Number") == "manufacturer_part_number"
  {
  }

  lemma SpacesLowered()
    ensures Lowered("Manufacturer Part Number") == "manufacturer part number"
  {
  }

  lemma ShortLowered()
    ensures Lowered("MPN") == "mpn"
  {
  }

  /** A property or a field is a part number's exactly when its name, in lower case, is one of three. */
  lemma PartSpellings(form: Sexp)
    requires Sliceable(form)
    ensures NamesPart(form) <==>
              && ChildArg(form, "name").Some?
              && Lowered(ChildArg(form, "name").value) in
                 ["mpn", "manufacturer part number", "manufacturer_part_number"]
  {
    UnderscoresLowered();
    SpacesLowered();
    ShortLowered();
    hide ChildArg, SameIgnoringCase, Lowered;
    var name := ChildArg(form, "name").GetOr("");
    SameLowered(name, MPN_FIELD_NAMES[0]);
    SameLowered(name, MPN_FIELD_NAMES[1]);
    SameLowered(name, MPN_FIELD_NAMES[2]);
  }

  // ----- reading, writing and reading again -----

  lemma {:induction false} GatheredWritable(forms: seq<Sexp>)
    requires forall k :: 0 <= k < |forms| ==> Sliceable(forms[k])
    ensures Gathered(forms, ComponentOf).Ok? ==> forall c :: c in Gathered(forms, ComponentOf).value ==> Writable(c)
  {
    if |forms| > 0 {
      GatheredWritable(forms[..|forms| - 1]);
      hide PartOf, ChildArg, Children, Child, Writable;
      assert ComponentOf(forms[|forms| - 1]).Ok? ==> Writable(ComponentOf(forms[|forms| - 1]).value) by {
        ReadIsWritable(forms[|forms| - 1]);
      }
    }
  }

  lemma ReadIsWritable(comp: Sexp)
    requires Sliceable(comp)
    ensures ComponentOf(comp).Ok? ==> Writable(ComponentOf(comp).value)
  {
    hide PartOf, ChildArg, Children, Child, NamesDnp, Trim;
  }

  /** Whatever was read, however it was written, is read again from its own export, printed in either style. */
  lemma ReadWriteRead(root: Sexp, older: bool)
    ensures NetlistOf(root).Ok? ==>
              var n := NetlistOf(root).value;
              && NetlistOf(ExportForm(n, older)) == Ok(n)
              && ListOf(Text(Printed(ExportForm(n, older)))) == Parsed(ExportForm(n, older), "")
  {
    hide ChildArg, Under, ComponentOf, NetOf, Gathered, ExportForm, ListOf, Text, Printed, Writable;
    if NetlistOf(root).Ok? {
      GatheredWritable(Under(root, "components", "comp"));
      NetlistReadBack(NetlistOf(root).value, older);
    }
  }
}
