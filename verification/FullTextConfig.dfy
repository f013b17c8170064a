/**
 * Full-text settings: resolved per graph from the configuration, and delta-encoded with scopes for
 * the indexer.
 */
module FullTextConfig {
  import opened Ledger

  const DEFAULT_GRAPH := "https://ns.flur.ee/db#defaultGraph"
  const TXN_META_GRAPH := "https://ns.flur.ee/db#txnMetaGraph"
  const TXN_META_SUFFIX := "#txn-meta"

  datatype Control = OverrideNone | AllowAll | IdentityRestricted(allowed: set<string>)

  datatype Property = Property(target: string)

  datatype FullText = FullText(language: Option<string>, properties: seq<Property>, control: Control)

  datatype GraphOverride = GraphOverride(target: string, fullText: Option<FullText>)

  datatype Config = Config(fullText: Option<FullText>, overrides: seq<GraphOverride>)

  /** A graph of the ledger; the txn-meta graph is the named graph with the ledger's txn-meta IRI. */
  datatype Graph = DefaultGraph | NamedGraph(iri: string)

  // ---------------------------------------------------------------------------
  // Override control
  // ---------------------------------------------------------------------------

  function Permissiveness(c: Control): nat {
    match c
    case OverrideNone => 0
    case IdentityRestricted(_) => 1
    case AllowAll => 2
  }

  /** `effective_min`. */
  function EffectiveMin(a: Control, b: Control): Control {
    if Permissiveness(a) < Permissiveness(b) then a
    else if Permissiveness(a) > Permissiveness(b) then b
    else if a.IdentityRestricted? && b.IdentityRestricted? then IdentityRestricted(a.allowed * b.allowed)
    else a
  }

  predicate Permits(c: Control, identity: Option<string>) {
    match c
    case OverrideNone => false
    case AllowAll => true
    case IdentityRestricted(allowed) => identity.Some? && identity.value in allowed
  }

  /** The tightened control lets through exactly the requests both controls let through. */
  lemma MinPermitsIffBoth(a: Control, b: Control, identity: Option<string>)
    ensures Permits(EffectiveMin(a, b), identity) <==> Permits(a, identity) && Permits(b, identity)
  {
    match a {
      case OverrideNone =>
      case AllowAll =>
      case IdentityRestricted(_) =>
    }
  }

  // ---------------------------------------------------------------------------
  // Merging
  // ---------------------------------------------------------------------------

  function Targets(ps: seq<Property>): (r: set<string>)
    ensures forall t :: t in r <==> exists i :: 0 <= i < |ps| && ps[i].target == t
  {
    set i | 0 <= i < |ps| :: ps[i].target
  }

  /** Where the first entry with this target is. */
  function Slot(ps: seq<Property>, target: string): (r: Option<nat>)
    ensures r.Some? ==> r.value < |ps|
  {
    if ps == [] then None
    else if ps[0].target == target then Some(0)
    else
      var s := Slot(ps[1..], target);
      if s.Some? then Some(s.value + 1) else None
  }

  /** One per-graph entry: it takes the slot of its target, or a new one at the end. */
  function Place(ps: seq<Property>, p: Property): seq<Property> {
    var s := Slot(ps, p.target);
    if s.Some? then ps[s.value := p] else ps + [p]
  }

  function PlaceAll(base: seq<Property>, more: seq<Property>): seq<Property> {
    if more == [] then base else Place(PlaceAll(base, more[..|more| - 1]), more[|more| - 1])
  }

  method MergeProperties(base: seq<Property>, more: seq<Property>) returns (merged: seq<Property>)
    ensures merged == PlaceAll(base, more)
  {
    merged := base;
    for i := 0 to |more|
      invariant merged == PlaceAll(base, more[..i])
    {
      assert more[..i + 1][..i] == more[..i];
      var j := 0;
      SlotFirst(merged, more[i].target);
      while j < |merged| && merged[j].target != more[i].target
        invariant j <= |merged| && forall k | 0 <= k < j :: merged[k].target != more[i].target
      {
        j := j + 1;
      }
      if j < |merged| { merged := merged[j := more[i]]; } else { merged := merged + [more[i]]; }
    }
    assert more[..|more|] == more;
  }

  lemma {:induction false} SlotFirst(ps: seq<Property>, target: string)
    ensures var s := Slot(ps, target);
      && (s.Some? ==>
          && ps[s.value].target == target
          && forall k | 0 <= k < s.value :: ps[k].target != target)
      && (s.None? ==> forall k | 0 <= k < |ps| :: ps[k].target != target)
  {
    if ps != [] && ps[0].target != target {
      SlotFirst(ps[1..], target);
      assert forall k | 0 < k < |ps| :: ps[k] == ps[1..][k - 1];
    }
  }

  lemma {:induction false} PlaceAllTargets(base: seq<Property>, more: seq<Property>)
    ensures Targets(PlaceAll(base, more)) == Targets(base) + Targets(more)
  {
    if more == [] {
      assert Targets(more) == {};
    } else {
      var front, last := more[..|more| - 1], more[|more| - 1];
      PlaceAllTargets(base, front);
      PlaceTargets(PlaceAll(base, front), last);
      assert more == front + [last];
      TargetsAppend(front, [last]);
      assert Targets([last]) == {last.target} by { assert [last][0] == last; }
    }
  }

  /** No target is listed twice. */
  predicate OneEach(ps: seq<Property>) {
    forall i, k | 0 <= i < k < |ps| :: ps[i].target != ps[k].target
  }

  /** The ledger-wide entries keep their places, and no target is listed twice if none was. */
  lemma {:induction false} PlaceAllOneEach(base: seq<Property>, more: seq<Property>)
    requires OneEach(base)
    ensures base <= PlaceAll(base, more) && OneEach(PlaceAll(base, more))
  {
    if more != [] {
      var front, last := more[..|more| - 1], more[|more| - 1];
      PlaceAllOneEach(base, front);
      SlotFirst(PlaceAll(base, front), last.target);
    }
  }

  lemma PlaceTargets(ps: seq<Property>, p: Property)
    ensures Targets(Place(ps, p)) == Targets(ps) + {p.target}
  {
    SlotFirst(ps, p.target);
    var s, placed := Slot(ps, p.target), Place(ps, p);
    if s.None? {
      TargetsAppend(ps, [p]);
      assert Targets([p]) == {p.target} by { assert [p][0] == p; }
    } else {
      forall t ensures t in Targets(placed) <==> t in Targets(ps) + {p.target} {
        if i :| 0 <= i < |ps| && ps[i].target == t { assert placed[i].target == t; }
        assert placed[s.value].target == p.target;
      }
    }
  }

  lemma TargetsAppend(a: seq<Property>, b: seq<Property>)
    ensures Targets(a + b) == Targets(a) + Targets(b)
  {
    var ab := a + b;
    forall t ensures t in Targets(ab) <==> t in Targets(a) + Targets(b) {
      if i :| 0 <= i < |a| && a[i].target == t { assert ab[i] == a[i]; }
      if i :| 0 <= i < |b| && b[i].target == t { assert ab[|a| + i] == b[i]; }
    }
  }

  /** `merge_over` for the full-text group. */
  function MergeOver(graph: FullText, base: FullText): FullText {
    FullText(if graph.language.Some? then graph.language else base.language,
             PlaceAll(base.properties, graph.properties),
             EffectiveMin(base.control, graph.control))
  }

  /** `merge_setting_group`: a ledger-wide OverrideNone is final. */
  function MergeGroup(ledger: Option<FullText>, graph: Option<FullText>): Option<FullText> {
    if graph.None? then ledger
    else if ledger.None? then graph
    else if ledger.value.control.OverrideNone? then ledger
    else Some(MergeOver(graph.value, ledger.value))
  }

  // ---------------------------------------------------------------------------
  // Direct resolution
  // ---------------------------------------------------------------------------

  predicate EndsWith(s: string, suffix: string) {
    |suffix| <= |s| && s[|s| - |suffix|..] == suffix
  }

  /** `matches_graph_target`. */
  predicate MatchesTarget(target: string, g: Graph) {
    match g
    case DefaultGraph => target == DEFAULT_GRAPH
    case NamedGraph(iri) => target == iri || (target == TXN_META_GRAPH && EndsWith(iri, TXN_META_SUFFIX))
  }

  function FindOverride(os: seq<GraphOverride>, g: Graph): Option<GraphOverride> {
    if os == [] then None else if MatchesTarget(os[0].target, g) then Some(os[0]) else FindOverride(os[1..], g)
  }

  /** `resolve_effective_config`, for the full-text group. */
  function Resolve(c: Config, g: Graph): Option<FullText> {
    var o := FindOverride(c.overrides, g);
    MergeGroup(c.fullText, if o.Some? then o.value.fullText else None)
  }

  function TargetsOf(ft: Option<FullText>): set<string> {
    if ft.Some? then Targets(ft.value.properties) else {}
  }

  // ---------------------------------------------------------------------------
  // Delta encoding
  // ---------------------------------------------------------------------------

  datatype Scope = AnyGraph | OnlyDefault | OnlyTxnMeta | OnlyNamed(iri: string)

  datatype Configured = Configured(scope: Scope, property: string)

  function ScopeOf(target: string): Scope {
    if target == DEFAULT_GRAPH then OnlyDefault
    else if target == TXN_META_GRAPH then OnlyTxnMeta
    else OnlyNamed(target)
  }

  /** The graphs the indexer applies a scope to. */
  predicate Covers(scope: Scope, g: Graph, txnMeta: string) {
    match scope
    case AnyGraph => true
    case OnlyDefault => g.DefaultGraph?
    case OnlyTxnMeta => g == NamedGraph(txnMeta)
    case OnlyNamed(iri) => g == NamedGraph(iri)
  }

  /** The ledger-wide group forbids overrides. */
  predicate Final(c: Config) {
    c.fullText.Some? && c.fullText.value.control.OverrideNone?
  }

  /** What an override adds beyond the ledger-wide list: its own properties, unless it is forbidden. */
  function Delta(c: Config, o: GraphOverride): set<string> {
    if o.fullText.None? || Final(c) then {} else Targets(o.fullText.value.properties) - TargetsOf(c.fullText)
  }

  /** Merging an override with the ledger-wide group adds just that, and loses nothing. */
  lemma MergedTargets(c: Config, ft: Option<FullText>)
    ensures TargetsOf(MergeGroup(c.fullText, ft)) ==
      TargetsOf(c.fullText) + if ft.None? || Final(c) then {} else Targets(ft.value.properties)
  {
    if ft.Some? && c.fullText.Some? { PlaceAllTargets(c.fullText.value.properties, ft.value.properties); }
  }

  /** The entries say exactly: ledger-wide targets everywhere, each override's delta in its scope. */
  ghost predicate Encodes(c: Config, out: seq<Configured>, n: nat) {
    forall e :: e in out <==>
      || (e.scope.AnyGraph? && e.property in TargetsOf(c.fullText))
      || FromOverride(c, e, n)
  }

  ghost predicate FromOverride(c: Config, e: Configured, n: nat) {
    exists i :: 0 <= i < n && i < |c.overrides|
      && e.scope == ScopeOf(c.overrides[i].target) && e.property in Delta(c, c.overrides[i])
  }

  method EmitProperties(out0: seq<Configured>, scope: Scope, ps: seq<Property>, except: set<string>)
    returns (out: seq<Configured>)
    ensures forall e :: e in out <==> e in out0 || (e.scope == scope && e.property in Targets(ps) - except)
  {
    out := out0;
    for i := 0 to |ps|
      invariant forall e :: e in out <==> e in out0 || (e.scope == scope && e.property in Targets(ps[..i]) - except)
    {
      assert ps[..i + 1] == ps[..i] + [ps[i]];
      TargetsAppend(ps[..i], [ps[i]]);
      assert Targets([ps[i]]) == {ps[i].target} by { assert [ps[i]][0] == ps[i]; }
      if ps[i].target !in except { out := out + [Configured(scope, ps[i].target)]; }
    }
    assert ps[..|ps|] == ps;
  }

  /** `configured_fulltext_properties_for_indexer`. */
  method ConfiguredProperties(c: Config) returns (out: seq<Configured>)
    ensures Encodes(c, out, |c.overrides|)
  {
    var ledgerWide := TargetsOf(c.fullText);
    out := [];
    if c.fullText.Some? { out := EmitProperties(out, AnyGraph, c.fullText.value.properties, {}); }
    assert Encodes(c, out, 0);
    for i := 0 to |c.overrides|
      invariant Encodes(c, out, i)
    {
      var o := c.overrides[i];
      var effective := MergeGroup(c.fullText, o.fullText);
      ghost var before := out;
      MergedTargets(c, o.fullText);
      if effective.Some? { out := EmitProperties(out, ScopeOf(o.target), effective.value.properties, ledgerWide); }
      EncodesNext(c, before, out, i);
    }
  }

  lemma EncodesNext(c: Config, before: seq<Configured>, after: seq<Configured>, i: nat)
    requires i < |c.overrides| && Encodes(c, before, i)
    requires var o := c.overrides[i];
      forall e :: e in after <==> e in before || (e.scope == ScopeOf(o.target) && e.property in Delta(c, o))
    ensures Encodes(c, after, i + 1)
  {
    var o := c.overrides[i];
    forall e ensures FromOverride(c, e, i + 1)
        <==> (FromOverride(c, e, i) || (e.scope == ScopeOf(o.target) && e.property in Delta(c, o)))
    {
    }
  }

  // ---------------------------------------------------------------------------
  // Agreement
  // ---------------------------------------------------------------------------

  /** The properties whose emitted scope covers the graph. */
  ghost predicate Indexed(out: seq<Configured>, g: Graph, txnMeta: string, property: string) {
    exists e :: e in out && Covers(e.scope, g, txnMeta) && e.property == property
  }

  /** The encoding and direct resolution agree on a graph. */
  ghost predicate Agrees(c: Config, out: seq<Configured>, g: Graph, txnMeta: string) {
    forall property :: Indexed(out, g, txnMeta, property) <==> property in TargetsOf(Resolve(c, g))
  }

  ghost predicate AtMostOneMatch(c: Config, g: Graph) {
    forall i, k | 0 <= i < k < |c.overrides| ::
      !(MatchesTarget(c.overrides[i].target, g) && MatchesTarget(c.overrides[k].target, g))
  }

  /** No sentinel used as a graph name, and no other ledger's txn-meta graph. */
  predicate Regular(g: Graph, txnMeta: string) {
    g.NamedGraph? ==>
      && g.iri != DEFAULT_GRAPH && g.iri != TXN_META_GRAPH
      && (EndsWith(g.iri, TXN_META_SUFFIX) ==> g.iri == txnMeta)
  }

  /** On a regular graph, an override's scope covers the graph exactly when its target matches it. */
  lemma ScopeIsMatch(target: string, g: Graph, txnMeta: string)
    requires Regular(g, txnMeta) && EndsWith(txnMeta, TXN_META_SUFFIX)
    ensures Covers(ScopeOf(target), g, txnMeta) <==> MatchesTarget(target, g)
  {
  }

  lemma {:induction false} FindIs(os: seq<GraphOverride>, g: Graph)
    ensures var o := FindOverride(os, g);
      && (o.None? ==> forall i | 0 <= i < |os| :: !MatchesTarget(os[i].target, g))
      && (o.Some? ==> exists i :: 0 <= i < |os| && os[i] == o.value && IsFirst(os, g, i))
  {
    if os != [] && MatchesTarget(os[0].target, g) {
      assert IsFirst(os, g, 0);
    } else if os != [] {
      FindIs(os[1..], g);
      assert forall i | 0 < i < |os| :: os[i] == os[1..][i - 1];
      var o := FindOverride(os[1..], g);
      if o.Some? {
        var i :| 0 <= i < |os[1..]| && os[1..][i] == o.value && IsFirst(os[1..], g, i);
        assert os[i + 1] == o.value && IsFirst(os, g, i + 1);
      }
    }
  }

  /** Override `i` is the first that matches the graph. */
  ghost predicate IsFirst(os: seq<GraphOverride>, g: Graph, i: nat)
    requires i < |os|
  {
    MatchesTarget(os[i].target, g) && forall k | 0 <= k < i :: !MatchesTarget(os[k].target, g)
  }

  /** `ft` is the ledger-wide group `base` with `graph` merged over it, per-graph entries winning. */
  ghost predicate IsMerge(base: FullText, graph: FullText, ft: FullText) {
    && Targets(ft.properties) == Targets(base.properties) + Targets(graph.properties)
    && ft.language == (if graph.language.Some? then graph.language else base.language)
    && (forall who :: Permits(ft.control, who) <==> Permits(base.control, who) && Permits(graph.control, who))
  }

  /**
   * What a graph resolves to, read off the configuration: the ledger-wide group if no override with
   * a group matches or overrides are forbidden, the override's group if there is no ledger-wide one,
   * and otherwise both merged. Only the first matching override counts.
   */
  lemma ResolvedGroup(c: Config, g: Graph, i: nat)
    requires i < |c.overrides| && IsFirst(c.overrides, g, i)
    ensures var ft := c.overrides[i].fullText;
      if ft.None? || Final(c) then Resolve(c, g) == c.fullText
      else if c.fullText.None? then Resolve(c, g) == ft
      else Resolve(c, g).Some? && IsMerge(c.fullText.value, ft.value, Resolve(c, g).value)
  {
    FindIs(c.overrides, g);
    var k :|
      && 0 <= k < |c.overrides| && FindOverride(c.overrides, g) == Some(c.overrides[k])
      && IsFirst(c.overrides, g, k);
    assert k == i;
    var ft := c.overrides[i].fullText;
    if ft.Some? && c.fullText.Some? && !Final(c) {
      PlaceAllTargets(c.fullText.value.properties, ft.value.properties);
      forall who ensures Permits(EffectiveMin(c.fullText.value.control, ft.value.control), who) <==>
          Permits(c.fullText.value.control, who) && Permits(ft.value.control, who)
      {
        MinPermitsIffBoth(c.fullText.value.control, ft.value.control, who);
      }
    }
  }

  lemma UnmatchedGroup(c: Config, g: Graph)
    requires forall i | 0 <= i < |c.overrides| :: !MatchesTarget(c.overrides[i].target, g)
    ensures Resolve(c, g) == c.fullText
  {
    FindIs(c.overrides, g);
  }

  /** What the overrides whose scope covers the graph add. */
  function CoveredAdds(c: Config, g: Graph, txnMeta: string): (r: set<string>)
    ensures forall p :: p in r <==> exists i :: 0 <= i < |c.overrides| && AddsTo(c, i, g, txnMeta, p)
  {
    set i, p | 0 <= i < |c.overrides| && p in Delta(c, c.overrides[i]) && AddsTo(c, i, g, txnMeta, p) :: p
  }

  predicate AddsTo(c: Config, i: nat, g: Graph, txnMeta: string, p: string)
    requires i < |c.overrides|
  {
    Covers(ScopeOf(c.overrides[i].target), g, txnMeta) && p in Delta(c, c.overrides[i])
  }

  /** What the first override that matches the graph adds. */
  function FirstAdds(c: Config, g: Graph): set<string> {
    var o := FindOverride(c.overrides, g);
    if o.Some? then Delta(c, o.value) else {}
  }

  /** What the indexer sees for a graph: ledger-wide targets and what covering overrides add. */
  lemma IndexedIff(c: Config, out: seq<Configured>, g: Graph, txnMeta: string, property: string)
    requires Encodes(c, out, |c.overrides|)
    ensures Indexed(out, g, txnMeta, property) <==>
      property in TargetsOf(c.fullText) || property in CoveredAdds(c, g, txnMeta)
  {
    if Indexed(out, g, txnMeta, property) && property !in TargetsOf(c.fullText) {
      var e :| e in out && Covers(e.scope, g, txnMeta) && e.property == property;
      var i :| 0 <= i < |c.overrides|
        && e.scope == ScopeOf(c.overrides[i].target) && property in Delta(c, c.overrides[i]);
      assert AddsTo(c, i, g, txnMeta, property);
    }
    if property in TargetsOf(c.fullText) { assert Configured(AnyGraph, property) in out; }
    if property in CoveredAdds(c, g, txnMeta) {
      var i :| 0 <= i < |c.overrides| && AddsTo(c, i, g, txnMeta, property);
      var e := Configured(ScopeOf(c.overrides[i].target), property);
      assert FromOverride(c, e, |c.overrides|) && e in out;
    }
  }

  /** What resolution gives a graph: ledger-wide targets and the delta of the first matching override. */
  lemma ResolvedIff(c: Config, g: Graph, property: string)
    ensures property in TargetsOf(Resolve(c, g)) <==> property in TargetsOf(c.fullText) || property in FirstAdds(c, g)
  {
    var o := FindOverride(c.overrides, g);
    MergedTargets(c, if o.Some? then o.value.fullText else None);
  }

  /** The first matching override adds whatever any matching override adds. */
  ghost predicate FirstAddsAll(c: Config, g: Graph) {
    forall i | 0 <= i < |c.overrides| && MatchesTarget(c.overrides[i].target, g) ::
      Delta(c, c.overrides[i]) <= Delta(c, FirstMatch(c, g, i))
  }

  ghost function FirstMatch(c: Config, g: Graph, i: nat): GraphOverride
    requires i < |c.overrides| && MatchesTarget(c.overrides[i].target, g)
  {
    FindIs(c.overrides, g);
    FindOverride(c.overrides, g).value
  }

  /** For every graph: the encoding agrees exactly when covering overrides add what the first match adds. */
  lemma AgreesIff(c: Config, out: seq<Configured>, g: Graph, txnMeta: string)
    requires Encodes(c, out, |c.overrides|)
    ensures Agrees(c, out, g, txnMeta) <==> CoveredAdds(c, g, txnMeta) == FirstAdds(c, g)
  {
    if CoveredAdds(c, g, txnMeta) == FirstAdds(c, g) {
      forall property ensures Indexed(out, g, txnMeta, property) <==> property in TargetsOf(Resolve(c, g)) {
        IndexedIff(c, out, g, txnMeta, property);
        ResolvedIff(c, g, property);
      }
    }
    if Agrees(c, out, g, txnMeta) {
      forall property ensures property in CoveredAdds(c, g, txnMeta) <==> property in FirstAdds(c, g) {
        IndexedIff(c, out, g, txnMeta, property);
        ResolvedIff(c, g, property);
        DeltaIsNew(c, g, txnMeta, property);
      }
    }
  }

  lemma DeltaIsNew(c: Config, g: Graph, txnMeta: string, property: string)
    ensures property in TargetsOf(c.fullText) ==>
      property !in CoveredAdds(c, g, txnMeta) && property !in FirstAdds(c, g)
  {
  }

  /** On a regular graph that is exactly when the first matching override adds all. */
  lemma RegularAgreesIff(c: Config, out: seq<Configured>, g: Graph, txnMeta: string)
    requires Encodes(c, out, |c.overrides|) && Regular(g, txnMeta) && EndsWith(txnMeta, TXN_META_SUFFIX)
    ensures Agrees(c, out, g, txnMeta) <==> FirstAddsAll(c, g)
  {
    AgreesIff(c, out, g, txnMeta);
    FindIs(c.overrides, g);
    forall i | 0 <= i < |c.overrides|
      ensures Covers(ScopeOf(c.overrides[i].target), g, txnMeta) <==> MatchesTarget(c.overrides[i].target, g)
    {
      ScopeIsMatch(c.overrides[i].target, g, txnMeta);
    }
    FirstIsCovered(c, g, txnMeta);
    if CoveredAdds(c, g, txnMeta) <= FirstAdds(c, g) {
      forall i | 0 <= i < |c.overrides| && MatchesTarget(c.overrides[i].target, g)
        ensures Delta(c, c.overrides[i]) <= Delta(c, FirstMatch(c, g, i))
      {
        assert forall p | p in Delta(c, c.overrides[i]) :: AddsTo(c, i, g, txnMeta, p);
      }
    }
    if FirstAddsAll(c, g) {
      forall p | p in CoveredAdds(c, g, txnMeta) ensures p in FirstAdds(c, g) {
        var i :| 0 <= i < |c.overrides| && AddsTo(c, i, g, txnMeta, p);
        assert Delta(c, c.overrides[i]) <= Delta(c, FirstMatch(c, g, i));
      }
    }
  }

  lemma FirstIsCovered(c: Config, g: Graph, txnMeta: string)
    requires forall i | 0 <= i < |c.overrides| ::
      Covers(ScopeOf(c.overrides[i].target), g, txnMeta) <==> MatchesTarget(c.overrides[i].target, g)
    ensures FirstAdds(c, g) <= CoveredAdds(c, g, txnMeta)
  {
    FindIs(c.overrides, g);
    if o :| FindOverride(c.overrides, g) == Some(o) {
      var i :| 0 <= i < |c.overrides| && c.overrides[i] == o && IsFirst(c.overrides, g, i);
      assert forall p | p in Delta(c, o) :: AddsTo(c, i, g, txnMeta, p);
    }
  }

  /** With at most one matching override the encoding agrees with direct resolution. */
  lemma EncodingAgrees(c: Config, out: seq<Configured>, g: Graph, txnMeta: string)
    requires Encodes(c, out, |c.overrides|) && Regular(g, txnMeta) && EndsWith(txnMeta, TXN_META_SUFFIX)
    requires AtMostOneMatch(c, g)
    ensures Agrees(c, out, g, txnMeta)
  {
    FindIs(c.overrides, g);
    forall i | 0 <= i < |c.overrides| && MatchesTarget(c.overrides[i].target, g)
      ensures FirstMatch(c, g, i) == c.overrides[i]
    {
      var k :| 0 <= k < |c.overrides| && c.overrides[k] == FindOverride(c.overrides, g).value
        && IsFirst(c.overrides, g, k);
      assert i == k;
    }
    RegularAgreesIff(c, out, g, txnMeta);
  }

  /** A ledger-wide OverrideNone is final: every graph gets the ledger-wide properties, in both forms. */
  lemma ForbiddenOverrides(c: Config, out: seq<Configured>, g: Graph, txnMeta: string)
    requires Encodes(c, out, |c.overrides|) && c.fullText.Some? && c.fullText.value.control.OverrideNone?
    ensures Resolve(c, g) == c.fullText && Agrees(c, out, g, txnMeta)
  {
    forall property ensures Indexed(out, g, txnMeta, property) <==> property in TargetsOf(c.fullText) {
      if property in TargetsOf(c.fullText) { assert Configured(AnyGraph, property) in out; }
      if e :| e in out && Covers(e.scope, g, txnMeta) && e.property == property {
        assert !FromOverride(c, e, |c.overrides|);
      }
    }
  }

  // ---------------------------------------------------------------------------
  // Where they part
  // ---------------------------------------------------------------------------

  function Adds(property: string): Option<FullText> {
    Some(FullText(None, [Property(property)], AllowAll))
  }

  lemma AddsDelta(target: string, property: string, os: seq<GraphOverride>)
    ensures Delta(Config(None, os), GraphOverride(target, Adds(property))) == {property}
  {
    var ps := [Property(property)];
    assert ps[0].target == property;
    assert Targets(ps) == {property};
  }

  lemma LastChar(s: string, suffix: string)
    requires EndsWith(s, suffix) && suffix != ""
    ensures s != "" && s[|s| - 1] == suffix[|suffix| - 1]
  {
    assert s[|s| - |suffix|..][|suffix| - 1] == suffix[|suffix| - 1];
  }

  /** For every graph that is not regular, one override that matches it is lost by the encoding. */
  lemma IrregularDisagrees(g: Graph, txnMeta: string) returns (c: Config)
    requires !Regular(g, txnMeta) && EndsWith(txnMeta, TXN_META_SUFFIX)
    ensures AtMostOneMatch(c, g)
    ensures forall out | Encodes(c, out, |c.overrides|) :: !Agrees(c, out, g, txnMeta)
  {
    var target := if g.iri == DEFAULT_GRAPH then DEFAULT_GRAPH else TXN_META_GRAPH;
    var o := GraphOverride(target, Adds("p"));
    c := Config(None, [o]);
    AddsDelta(target, "p", c.overrides);
    LastChar(txnMeta, TXN_META_SUFFIX);
    assert g.iri == TXN_META_GRAPH ==> g.iri[|g.iri| - 1] == 'h';
    assert MatchesTarget(target, g) && !Covers(ScopeOf(target), g, txnMeta);
    ResolvedIff(c, g, "p");
    forall out: seq<Configured> | Encodes(c, out, |c.overrides|) ensures !Agrees(c, out, g, txnMeta) {
      forall e | e in out ensures e.scope == ScopeOf(target) { assert FromOverride(c, e, 1); }
      assert !Indexed(out, g, txnMeta, "p");
    }
  }

  function TwoOverrides(iri: string): Config {
    Config(None, [GraphOverride(iri, Adds("p")), GraphOverride(iri, Adds("q"))])
  }

  /** Two overrides for one graph: resolution takes the first, the encoding adds up both. */
  lemma TwoOverridesDisagree(iri: string, txnMeta: string, out: seq<Configured>)
    requires Regular(NamedGraph(iri), txnMeta) && EndsWith(txnMeta, TXN_META_SUFFIX)
    requires Encodes(TwoOverrides(iri), out, 2)
    ensures !Agrees(TwoOverrides(iri), out, NamedGraph(iri), txnMeta)
  {
    var c := TwoOverrides(iri);
    AddsDelta(iri, "p", c.overrides);
    AddsDelta(iri, "q", c.overrides);
    RegularAgreesIff(c, out, NamedGraph(iri), txnMeta);
    assert MatchesTarget(c.overrides[1].target, NamedGraph(iri));
    assert "q" in Delta(c, c.overrides[1]) && FindOverride(c.overrides, NamedGraph(iri)) == Some(c.overrides[0]);
  }
}
