/** The tenant-key analyser. */
module TenantFilter {
  // Does an object literal of a query name the tenant? Which declaration an identifier resolves to is the parameter `resolve`;
  // regular expressions are written out as recognisers.

  import opened Common
  import opened Text

  datatype Expr =
    | ObjectLiteral(properties: seq<Property>)
    | ArrayLiteral(elements: seq<Expr>)
    | Identifier(name: string, position: nat)
    | Conditional(whenTrue: Expr, whenFalse: Expr)
    | OtherExpr

  /** A property name is absent when it is computed or numeric. */
  datatype Property =
    | Spread(expression: Expr)
    | Assignment(key: Option<string>, initializer: Expr)
    | Shorthand(shorthand: string, position: nat)
    | Method(key: Option<string>)
    | Accessor

  type Resolver = (string, nat) -> Option<Expr>

  datatype Verdict = Yes | No | Dynamic

  const MAX_SPREAD_DEPTH: nat := 4

  // ----- property names

  /** `(^|_)tenantId(_|$)` matches at position `i`. */
  predicate TenantSegmentAt(name: string, i: nat) {
    && i + 8 <= |name|
    && name[i..i + 8] == "tenantId"
    && (i == 0 || name[i - 1] == '_')
    && (i + 8 == |name| || name[i + 8] == '_')
  }

  predicate IsTenantName(name: string, scopeKeyIsTenant: bool) {
    || name == "tenantId"
    || (exists i :: 0 <= i <= |name| && TenantSegmentAt(name, i))
    || (scopeKeyIsTenant && name == "scopeKey")
  }

  predicate IsTenantKey(key: Option<string>, scopeKeyIsTenant: bool) {
    key.Some? && IsTenantName(key.value, scopeKeyIsTenant)
  }

  /** The object literal a spread is resolved to, while the depth bound allows it. */
  function SpreadTarget(expression: Expr, resolve: Resolver, depth: nat): Option<seq<Property>> {
    if expression.Identifier? && depth < MAX_SPREAD_DEPTH then
      var target := resolve(expression.name, expression.position);
      if target.Some? && target.value.ObjectLiteral? then Some(target.value.properties) else None
    else None
  }

  function Budget(depth: nat): nat {
    if depth < MAX_SPREAD_DEPTH then MAX_SPREAD_DEPTH - depth else 0
  }

  /** The members of an AND: the elements of an array literal, otherwise the expression itself. */
  function MemberCount(initializer: Expr): nat {
    if initializer.ArrayLiteral? then |initializer.elements| else 1
  }

  function MemberAt(initializer: Expr, k: nat): Expr
    requires k < MemberCount(initializer)
  {
    if initializer.ArrayLiteral? then initializer.elements[k] else initializer
  }

  // ----- what a literal names at run time

  /** Where in the literal an opaque piece stands. */
  type Site = seq<nat>

  /** For each opaque piece (an unresolved spread or AND member): would it name the tenant? */
  type Oracle = Site -> bool

  const NEVER: Oracle := (site: Site) => false
  const ALWAYS: Oracle := (site: Site) => true

  ghost predicate Names(properties: seq<Property>, resolve: Resolver, scoped: bool, depth: nat, site: Site, oracle: Oracle)
    decreases Budget(depth), properties, 0
  {
    exists i | 0 <= i < |properties| :: PropertyNames(properties[i], resolve, scoped, depth, site + [i], oracle)
  }

  ghost predicate PropertyNames(p: Property, resolve: Resolver, scoped: bool, depth: nat, site: Site, oracle: Oracle)
    decreases Budget(depth), p, 0
  {
    match p
    case Spread(expression) =>
      var target := SpreadTarget(expression, resolve, depth);
      if target.Some? then Names(target.value, resolve, scoped, depth + 1, site, oracle) else oracle(site)
    case Assignment(key, initializer) =>
      || IsTenantKey(key, scoped)
      || (key == Some("AND") &&
          exists j | 0 <= j < MemberCount(initializer) ::
            MemberNames(MemberAt(initializer, j), resolve, scoped, depth, site + [j], oracle))
    case Shorthand(name, _) => IsTenantName(name, scoped)
    case Method(key) => IsTenantKey(key, scoped)
    case Accessor => false
  }

  ghost predicate MemberNames(member: Expr, resolve: Resolver, scoped: bool, depth: nat, site: Site, oracle: Oracle)
    decreases Budget(depth), member, 0
  {
    if member.ObjectLiteral? then Names(member.properties, resolve, scoped, depth + 1, site, oracle) else oracle(site)
  }

  /** The answer the extreme oracles give: named whatever the opaque pieces are, named only if one of them does, or never named. */
  ghost function Judge(always: bool, possibly: bool): Verdict {
    if always then Yes else if possibly then Dynamic else No
  }

  ghost function LiteralVerdict(properties: seq<Property>, resolve: Resolver, scoped: bool, depth: nat): Verdict {
    Judge(Names(properties, resolve, scoped, depth, [], NEVER), Names(properties, resolve, scoped, depth, [], ALWAYS))
  }

  // ----- the analyser

  function PropertyName(p: Property): Option<string> {
    match p
    case Assignment(key, _) => key
    case Shorthand(name, _) => Some(name)
    case Method(key) => key
    case _ => None
  }

  lemma EmptyNameIsNoTenant(scopeKeyIsTenant: bool)
    ensures !IsTenantName("", scopeKeyIsTenant)
  {
  }

  /** `literalNamesTenant`. */
  method LiteralNamesTenant(properties: seq<Property>, resolve: Resolver, depth: nat, scopeKeyIsTenant: bool) returns (verdict: Verdict)
    ensures verdict == LiteralVerdict(properties, resolve, scopeKeyIsTenant, depth)
    decreases Budget(depth), properties, 0
  {
    EmptyNameIsNoTenant(scopeKeyIsTenant);
    hide IsTenantName;
    var dynamic := false;
    for i := 0 to |properties|
      invariant forall k | 0 <= k < i :: !PropertyNames(properties[k], resolve, scopeKeyIsTenant, depth, [] + [k], NEVER)
      invariant dynamic <==> exists k | 0 <= k < i :: PropertyNames(properties[k], resolve, scopeKeyIsTenant, depth, [] + [k], ALWAYS)
    {
      var prop := properties[i];
      if prop.Spread? {
        var inner := SpreadVerdict(prop, resolve, depth, scopeKeyIsTenant, [] + [i]);
        if inner == Yes {
          return Yes;
        }
        if inner == Dynamic {
          dynamic := true;
        }
        continue;
      }
      var name := PropertyName(prop);
      if name.None? || name.value == "" {
        continue;
      }
      if IsTenantName(name.value, scopeKeyIsTenant) {
        assert PropertyNames(properties[i], resolve, scopeKeyIsTenant, depth, [] + [i], NEVER);
        return Yes;
      }
      if name.value == "AND" && prop.Assignment? {
        var inner := AndVerdict(prop, resolve, depth, scopeKeyIsTenant, [] + [i]);
        if inner == Yes {
          return Yes;
        }
        if inner == Dynamic {
          dynamic := true;
        }
      }
    }
    verdict := if dynamic then Dynamic else No;
  }

  method SpreadVerdict(prop: Property, resolve: Resolver, depth: nat, scopeKeyIsTenant: bool, ghost site: Site) returns (verdict: Verdict)
    requires prop.Spread?
    ensures verdict == Judge(
      PropertyNames(prop, resolve, scopeKeyIsTenant, depth, site, NEVER),
      PropertyNames(prop, resolve, scopeKeyIsTenant, depth, site, ALWAYS))
    decreases Budget(depth), prop, 1
  {
    var target := SpreadTarget(prop.expression, resolve, depth);
    if target.Some? {
      verdict := LiteralNamesTenant(target.value, resolve, depth + 1, scopeKeyIsTenant);
      SiteIndependent(target.value, resolve, scopeKeyIsTenant, depth + 1, [], site, NEVER);
      SiteIndependent(target.value, resolve, scopeKeyIsTenant, depth + 1, [], site, ALWAYS);
    } else {
      verdict := Dynamic;
    }
  }

  /** The loop over the AND members of one property. */
  method AndVerdict(prop: Property, resolve: Resolver, depth: nat, scopeKeyIsTenant: bool, ghost site: Site) returns (verdict: Verdict)
    requires prop.Assignment? && prop.key == Some("AND")
    ensures verdict == Judge(
      PropertyNames(prop, resolve, scopeKeyIsTenant, depth, site, NEVER),
      PropertyNames(prop, resolve, scopeKeyIsTenant, depth, site, ALWAYS))
    decreases Budget(depth), prop, 1
  {
    hide MemberNames, Names;
    var dynamic := false;
    for j := 0 to MemberCount(prop.initializer)
      invariant forall k | 0 <= k < j :: !MemberNames(MemberAt(prop.initializer, k), resolve, scopeKeyIsTenant, depth, site + [k], NEVER)
      invariant dynamic <==> exists k | 0 <= k < j :: MemberNames(MemberAt(prop.initializer, k), resolve, scopeKeyIsTenant, depth, site + [k], ALWAYS)
    {
      var inner := MemberVerdict(MemberAt(prop.initializer, j), resolve, depth, scopeKeyIsTenant, site + [j]);
      if inner == Yes {
        return Yes;
      }
      if inner == Dynamic {
        dynamic := true;
      }
    }
    verdict := if dynamic then Dynamic else No;
  }

  method MemberVerdict(member: Expr, resolve: Resolver, depth: nat, scopeKeyIsTenant: bool, ghost site: Site) returns (verdict: Verdict)
    ensures verdict == Judge(
      MemberNames(member, resolve, scopeKeyIsTenant, depth, site, NEVER),
      MemberNames(member, resolve, scopeKeyIsTenant, depth, site, ALWAYS))
    decreases Budget(depth), member, 1
  {
    if member.ObjectLiteral? {
      verdict := LiteralNamesTenant(member.properties, resolve, depth + 1, scopeKeyIsTenant);
      SiteIndependent(member.properties, resolve, scopeKeyIsTenant, depth + 1, [], site, NEVER);
      SiteIndependent(member.properties, resolve, scopeKeyIsTenant, depth + 1, [], site, ALWAYS);
    } else {
      verdict := Dynamic;
    }
  }

  ghost predicate Constant(oracle: Oracle) {
    forall s, t :: oracle(s) == oracle(t)
  }

  /** With a constant oracle it does not matter where a literal stands. */
  lemma {:induction false} SiteIndependent(properties: seq<Property>, resolve: Resolver, scoped: bool, depth: nat, s: Site, t: Site, oracle: Oracle)
    requires Constant(oracle)
    ensures Names(properties, resolve, scoped, depth, s, oracle) == Names(properties, resolve, scoped, depth, t, oracle)
    decreases Budget(depth), properties, 0
  {
    forall i | 0 <= i < |properties|
      ensures PropertyNames(properties[i], resolve, scoped, depth, s + [i], oracle) == PropertyNames(properties[i], resolve, scoped, depth, t + [i], oracle)
    {
      PropertySiteIndependent(properties[i], resolve, scoped, depth, s + [i], t + [i], oracle);
    }
  }

  lemma {:induction false} PropertySiteIndependent(p: Property, resolve: Resolver, scoped: bool, depth: nat, s: Site, t: Site, oracle: Oracle)
    requires Constant(oracle)
    ensures PropertyNames(p, resolve, scoped, depth, s, oracle) == PropertyNames(p, resolve, scoped, depth, t, oracle)
    decreases Budget(depth), p, 0
  {
    match p
    case Spread(expression) =>
      var target := SpreadTarget(expression, resolve, depth);
      if target.Some? {
        SiteIndependent(target.value, resolve, scoped, depth + 1, s, t, oracle);
      }
    case Assignment(key, initializer) =>
      forall j | 0 <= j < MemberCount(initializer)
        ensures MemberNames(MemberAt(initializer, j), resolve, scoped, depth, s + [j], oracle) == MemberNames(MemberAt(initializer, j), resolve, scoped, depth, t + [j], oracle)
      {
        var member := MemberAt(initializer, j);
        if member.ObjectLiteral? {
          SiteIndependent(member.properties, resolve, scoped, depth + 1, s + [j], t + [j], oracle);
        }
      }
    case _ =>
  }

  // ----- the verdict is the best possible one

  ghost predicate Below(weak: Oracle, strong: Oracle) {
    forall site :: weak(site) ==> strong(site)
  }

  /** The more the opaque pieces name, the more the literal names. */
  lemma {:induction false} NamesMonotone(properties: seq<Property>, resolve: Resolver, scoped: bool, depth: nat, site: Site, weak: Oracle, strong: Oracle)
    requires Below(weak, strong)
    ensures Names(properties, resolve, scoped, depth, site, weak) ==> Names(properties, resolve, scoped, depth, site, strong)
    decreases Budget(depth), properties, 0
  {
    if Names(properties, resolve, scoped, depth, site, weak) {
      var i :| 0 <= i < |properties| && PropertyNames(properties[i], resolve, scoped, depth, site + [i], weak);
      PropertyMonotone(properties[i], resolve, scoped, depth, site + [i], weak, strong);
    }
  }

  lemma {:induction false} PropertyMonotone(p: Property, resolve: Resolver, scoped: bool, depth: nat, site: Site, weak: Oracle, strong: Oracle)
    requires Below(weak, strong)
    ensures PropertyNames(p, resolve, scoped, depth, site, weak) ==> PropertyNames(p, resolve, scoped, depth, site, strong)
    decreases Budget(depth), p, 0
  {
    if p.Spread? {
      var target := SpreadTarget(p.expression, resolve, depth);
      if target.Some? {
        NamesMonotone(target.value, resolve, scoped, depth + 1, site, weak, strong);
      }
    } else if p.Assignment? {
      forall k | 0 <= k < MemberCount(p.initializer)
        ensures MemberNames(MemberAt(p.initializer, k), resolve, scoped, depth, site + [k], weak)
            ==> MemberNames(MemberAt(p.initializer, k), resolve, scoped, depth, site + [k], strong)
      {
        var member := MemberAt(p.initializer, k);
        if member.ObjectLiteral? {
          NamesMonotone(member.properties, resolve, scoped, depth + 1, site + [k], weak, strong);
        }
      }
    }
  }

  /**
   * The verdict is exact: `Yes` iff the literal names the tenant whatever the opaque pieces hold, `No` iff it never does,
   * and `Dynamic` iff the opaque pieces decide it.
   */
  lemma VerdictIsExact(properties: seq<Property>, resolve: Resolver, scoped: bool, depth: nat)
    ensures LiteralVerdict(properties, resolve, scoped, depth) == Yes
       <==> forall oracle: Oracle :: Names(properties, resolve, scoped, depth, [], oracle)
    ensures LiteralVerdict(properties, resolve, scoped, depth) == No
       <==> forall oracle: Oracle :: !Names(properties, resolve, scoped, depth, [], oracle)
    ensures LiteralVerdict(properties, resolve, scoped, depth) == Dynamic
       <==> ((exists oracle: Oracle :: Names(properties, resolve, scoped, depth, [], oracle))
             && (exists oracle: Oracle :: !Names(properties, resolve, scoped, depth, [], oracle)))
  {
    forall oracle: Oracle
      ensures Names(properties, resolve, scoped, depth, [], NEVER) ==> Names(properties, resolve, scoped, depth, [], oracle)
      ensures Names(properties, resolve, scoped, depth, [], oracle) ==> Names(properties, resolve, scoped, depth, [], ALWAYS)
    {
      NamesMonotone(properties, resolve, scoped, depth, [], NEVER, oracle);
      NamesMonotone(properties, resolve, scoped, depth, [], oracle, ALWAYS);
    }
    var never: Oracle, always: Oracle := NEVER, ALWAYS;
    assert Names(properties, resolve, scoped, depth, [], never) == Names(properties, resolve, scoped, depth, [], NEVER);
    assert Names(properties, resolve, scoped, depth, [], always) == Names(properties, resolve, scoped, depth, [], ALWAYS);
  }

  // ----- order and repetition do not matter, at any depth

  /** Every property of `a` has a counterpart in `b`, in any position, and so have the AND members below it. */
  ghost predicate Covered(a: seq<Property>, b: seq<Property>)
    decreases a, 0
  {
    forall i | 0 <= i < |a| :: exists j :: 0 <= j < |b| && PropertyCovered(a[i], b[j])
  }

  ghost predicate PropertyCovered(p: Property, q: Property)
    decreases p, 0
  {
    || p == q
    || (p.Assignment? && q.Assignment? && p.key == q.key == Some("AND") &&
        forall i | 0 <= i < MemberCount(p.initializer) ::
          exists j :: 0 <= j < MemberCount(q.initializer) && MemberCovered(MemberAt(p.initializer, i), MemberAt(q.initializer, j)))
  }

  ghost predicate MemberCovered(m: Expr, n: Expr)
    decreases m, 0
  {
    if m.ObjectLiteral? then n.ObjectLiteral? && Covered(m.properties, n.properties) else !n.ObjectLiteral?
  }

  lemma {:induction false} CoveredNames(a: seq<Property>, b: seq<Property>, resolve: Resolver, scoped: bool, depth: nat, s: Site, t: Site, oracle: Oracle)
    requires Covered(a, b) && Constant(oracle)
    ensures Names(a, resolve, scoped, depth, s, oracle) ==> Names(b, resolve, scoped, depth, t, oracle)
    decreases a, 0
  {
    if Names(a, resolve, scoped, depth, s, oracle) {
      var i :| 0 <= i < |a| && PropertyNames(a[i], resolve, scoped, depth, s + [i], oracle);
      var j :| 0 <= j < |b| && PropertyCovered(a[i], b[j]);
      CoveredProperty(a[i], b[j], resolve, scoped, depth, s + [i], t + [j], oracle);
    }
  }

  lemma {:induction false} CoveredProperty(p: Property, q: Property, resolve: Resolver, scoped: bool, depth: nat, s: Site, t: Site, oracle: Oracle)
    requires PropertyCovered(p, q) && Constant(oracle)
    ensures PropertyNames(p, resolve, scoped, depth, s, oracle) ==> PropertyNames(q, resolve, scoped, depth, t, oracle)
    decreases p, 0
  {
    if p == q {
      PropertySiteIndependent(p, resolve, scoped, depth, s, t, oracle);
    } else if PropertyNames(p, resolve, scoped, depth, s, oracle) {
      var i :| 0 <= i < MemberCount(p.initializer) && MemberNames(MemberAt(p.initializer, i), resolve, scoped, depth, s + [i], oracle);
      var m := MemberAt(p.initializer, i);
      var j :| 0 <= j < MemberCount(q.initializer) && MemberCovered(m, MemberAt(q.initializer, j));
      var n := MemberAt(q.initializer, j);
      if m.ObjectLiteral? {
        CoveredNames(m.properties, n.properties, resolve, scoped, depth + 1, s + [i], t + [j], oracle);
      }
      assert MemberNames(n, resolve, scoped, depth, t + [j], oracle);
    }
  }

  /** Rearranging or repeating properties, or AND members at any depth, does not change the verdict. */
  lemma {:induction false} OrderDoesNotMatter(a: seq<Property>, b: seq<Property>, resolve: Resolver, scoped: bool, depth: nat)
    requires Covered(a, b) && Covered(b, a)
    ensures LiteralVerdict(a, resolve, scoped, depth) == LiteralVerdict(b, resolve, scoped, depth)
  {
    hide Names, Covered;
    CoveredNames(a, b, resolve, scoped, depth, [], [], NEVER);
    CoveredNames(b, a, resolve, scoped, depth, [], [], NEVER);
    CoveredNames(a, b, resolve, scoped, depth, [], [], ALWAYS);
    CoveredNames(b, a, resolve, scoped, depth, [], [], ALWAYS);
  }

  // ----- the advice of the gate: spread what was built elsewhere and pin the tenant

  /** A literal with the pinned key passes, wherever the key stands and whatever is spread beside it. */
  lemma PinnedTenantPasses(before: seq<Property>, after: seq<Property>, resolve: Resolver, scoped: bool, depth: nat, position: nat)
    ensures LiteralVerdict(before + [Shorthand("tenantId", position)] + after, resolve, scoped, depth) == Yes
  {
    var all := before + [Shorthand("tenantId", position)] + after;
    assert PropertyNames(all[|before|], resolve, scoped, depth, [] + [|before|], NEVER);
  }

  /** A composite key names the tenant iff `tenantId` is one of its underscore-separated parts. */
  lemma {:induction false} CompositeKeys(name: string)
    ensures IsTenantName(name, false) <==> "tenantId" in Split(name, '_')
  {
    if name == "tenantId" {
      assert name[0..8] == "tenantId";
      assert TenantSegmentAt(name, 0);
    }
    SegmentsOf(name, 0);
    assert name[0..] == name;
  }

  /** From a segment start, the later segment matches are exactly the `tenantId` parts of the rest. */
  lemma {:induction false} SegmentsOf(name: string, from: nat)
    requires from <= |name| && (from == 0 || name[from - 1] == '_')
    ensures (exists i :: from <= i <= |name| && TenantSegmentAt(name, i)) <==> "tenantId" in Split(name[from..], '_')
    decreases |name| - from
  {
    hide TenantSegmentAt;
    var end := NextUnderscore(name, from);
    SegmentHere(name, from, end);
    if end == |name| {
      SplitWithout(name[from..], '_');
      assert name[from..end] == name[from..];
    } else {
      SplitAfter(name[from..end], name[end + 1..], '_');
      assert name[from..] == name[from..end] + ['_'] + name[end + 1..];
      SegmentsOf(name, end + 1);
    }
  }

  /** Inside one part, only the whole part can match. */
  lemma {:induction false} SegmentHere(name: string, from: nat, end: nat)
    requires from <= end <= |name| && (from == 0 || name[from - 1] == '_')
    requires '_' !in name[from..end] && (end < |name| ==> name[end] == '_')
    ensures TenantSegmentAt(name, from) <==> name[from..end] == "tenantId"
    ensures forall i | from < i <= end :: !TenantSegmentAt(name, i)
  {
    if TenantSegmentAt(name, from) {
      assert end >= from + 8 by {
        assert forall k | from <= k < from + 8 :: name[k] == "tenantId"[k - from];
      }
      assert end <= from + 8 by {
        assert forall k | from <= k < end :: name[k] == name[from..end][k - from];
      }
    }
    forall i | from < i <= end
      ensures !TenantSegmentAt(name, i)
    {
      assert name[from..end][i - 1 - from] == name[i - 1];
    }
  }

  function NextUnderscore(name: string, from: nat): (end: nat)
    requires from <= |name|
    ensures from <= end <= |name|
    ensures end < |name| ==> name[end] == '_'
    ensures '_' !in name[from..end]
    decreases |name| - from
  {
    if from == |name| || name[from] == '_' then from
    else
      var end := NextUnderscore(name, from + 1);
      assert name[from..end] == [name[from]] + name[from + 1..end];
      end
  }

  // ----- the depth bound

  /** `where0 = { ...where1 }`, `where1 = { ...where2 }`, and so on; the last of the `links` literals is `{ tenantId }`. */
  function Chain(links: nat): Resolver {
    (name: string, position: nat) =>
      if position + 1 < links then Some(ObjectLiteral([Spread(Identifier("where", position + 1))]))
      else Some(ObjectLiteral([Shorthand("tenantId", 0)]))
  }

  lemma {:induction false} ChainNames(links: nat, position: nat, depth: nat, site: Site, oracle: Oracle)
    requires position < links && depth <= MAX_SPREAD_DEPTH && Constant(oracle)
    ensures Names([Spread(Identifier("where", position))], Chain(links), false, depth, site, oracle)
         == if links - position + depth <= MAX_SPREAD_DEPTH then true else oracle(site)
    decreases links - position
  {
    var literal := [Spread(Identifier("where", position))];
    assert Names(literal, Chain(links), false, depth, site, oracle) == PropertyNames(literal[0], Chain(links), false, depth, site + [0], oracle);
    if depth < MAX_SPREAD_DEPTH {
      if position + 1 < links {
        ChainNames(links, position + 1, depth + 1, site + [0], oracle);
      } else {
        var last := [Shorthand("tenantId", 0)];
        assert PropertyNames(last[0], Chain(links), false, depth + 1, site + [0] + [0], oracle);
      }
    }
  }

  /** On a chain of literals the analyser follows exactly four nested spreads; behind a fifth it gives up. */
  lemma SpreadBound(links: nat)
    requires links > 0
    ensures LiteralVerdict([Spread(Identifier("where", 0))], Chain(links), false, 0) == if links <= MAX_SPREAD_DEPTH then Yes else Dynamic
  {
    ChainNames(links, 0, 0, [], NEVER);
    ChainNames(links, 0, 0, [], ALWAYS);
  }

  /** Below the literal, `n` steps through resolved spreads and AND members, stands a spread. */
  ghost predicate SpreadBelow(properties: seq<Property>, resolve: Resolver, n: nat)
    decreases n, 1
  {
    exists i | 0 <= i < |properties| :: if n == 0 then properties[i].Spread? else StepsBelow(properties[i], resolve, n)
  }

  /** One of those steps, from one property. */
  ghost predicate StepsBelow(p: Property, resolve: Resolver, n: nat)
    requires n > 0
    decreases n, 0
  {
    match p
    case Spread(expression) =>
      var target := SpreadTarget(expression, resolve, 0);
      target.Some? && SpreadBelow(target.value, resolve, n - 1)
    case Assignment(key, initializer) =>
      key == Some("AND") && exists j | 0 <= j < MemberCount(initializer) ::
        MemberAt(initializer, j).ObjectLiteral? && SpreadBelow(MemberAt(initializer, j).properties, resolve, n - 1)
    case _ => false
  }

  lemma {:induction false} DeepSpreadNames(properties: seq<Property>, resolve: Resolver, scoped: bool, depth: nat, site: Site, n: nat)
    requires depth + n >= MAX_SPREAD_DEPTH && SpreadBelow(properties, resolve, n)
    ensures Names(properties, resolve, scoped, depth, site, ALWAYS)
    decreases n, 1
  {
    hide PropertyNames, StepsBelow;
    var i :| 0 <= i < |properties| && if n == 0 then properties[i].Spread? else StepsBelow(properties[i], resolve, n);
    DeepPropertyNames(properties[i], resolve, scoped, depth, site + [i], n);
  }

  lemma {:induction false} DeepPropertyNames(p: Property, resolve: Resolver, scoped: bool, depth: nat, site: Site, n: nat)
    requires depth + n >= MAX_SPREAD_DEPTH && if n == 0 then p.Spread? else StepsBelow(p, resolve, n)
    ensures PropertyNames(p, resolve, scoped, depth, site, ALWAYS)
    decreases n, 0
  {
    hide IsTenantKey, IsTenantName, Names, SpreadBelow;
    if p.Spread? {
      var target := SpreadTarget(p.expression, resolve, depth);
      if n > 0 && target.Some? {
        DeepSpreadNames(target.value, resolve, scoped, depth + 1, site, n - 1);
      }
    } else {
      var j :| 0 <= j < MemberCount(p.initializer) && MemberAt(p.initializer, j).ObjectLiteral?
               && SpreadBelow(MemberAt(p.initializer, j).properties, resolve, n - 1);
      DeepSpreadNames(MemberAt(p.initializer, j).properties, resolve, scoped, depth + 1, site + [j], n - 1);
      assert MemberNames(MemberAt(p.initializer, j), resolve, scoped, depth, site + [j], ALWAYS);
    }
  }

  /**
   * Where the depth bound is reached a spread is never answered `No`: at depth four any spread in the literal, and above it any
   * spread as many steps further down, in every literal and for every resolver.
   */
  lemma {:induction false} DeepSpreadIsNeverNo(properties: seq<Property>, resolve: Resolver, scoped: bool, depth: nat, n: nat)
    requires depth + n >= MAX_SPREAD_DEPTH && SpreadBelow(properties, resolve, n)
    ensures LiteralVerdict(properties, resolve, scoped, depth) != No
  {
    DeepSpreadNames(properties, resolve, scoped, depth, [], n);
    hide Names;
  }

  // ----- the gate on a read, update or delete call

  datatype Finding = MissingFilter | DynamicWhere

  predicate IsWhere(p: Property) {
    || (p.Assignment? && p.key == Some("where"))
    || (p.Shorthand? && p.shorthand == "where")
  }

  function FirstWhere(properties: seq<Property>): (r: Option<Property>)
    ensures r.Some? <==> exists p :: p in properties && IsWhere(p)
    ensures r.Some? ==> IsWhere(r.value)
  {
    if properties == [] then None
    else if IsWhere(properties[0]) then Some(properties[0])
    else FirstWhere(properties[1..])
  }

  /** The expression judged as the filter: the `where` value of an object argument, otherwise the argument itself. */
  function FilterExpression(argument: Option<Expr>): Option<Expr> {
    if argument.None? then None
    else if !argument.value.ObjectLiteral? then argument
    else
      match FirstWhere(argument.value.properties)
      case None => None
      case Some(Shorthand(name, position)) => Some(Identifier(name, position))
      case Some(p) => Some(p.initializer)
  }

  /** One resolution step for an identifier, then the two arms of a conditional. */
  function Branches(filter: Expr, resolve: Resolver): (branches: seq<Expr>)
    ensures |branches| > 0
  {
    var found := if filter.Identifier? then resolve(filter.name, filter.position) else None;
    var init := if found.Some? then found.value else filter;
    if init.Conditional? then [init.whenTrue, init.whenFalse] else [init]
  }

  ghost function BranchVerdict(branch: Expr, resolve: Resolver, scoped: bool): Verdict {
    if branch.ObjectLiteral? then LiteralVerdict(branch.properties, resolve, scoped, 0) else Dynamic
  }

  /**
   * The `where` finding of one call. It passes iff there is a filter and every branch of it certainly names the tenant;
   * it is `MissingFilter` iff nothing about the filter is opaque and some branch never names the tenant.
   */
  method WhereFinding(argument: Option<Expr>, resolve: Resolver, scopeKeyIsTenant: bool) returns (finding: Option<Finding>)
    ensures finding == None <==>
            && FilterExpression(argument).Some?
            && forall b | b in Branches(FilterExpression(argument).value, resolve) :: BranchVerdict(b, resolve, scopeKeyIsTenant) == Yes
    ensures finding == Some(MissingFilter) <==>
            if FilterExpression(argument).Some? then
              && (forall b | b in Branches(FilterExpression(argument).value, resolve) :: BranchVerdict(b, resolve, scopeKeyIsTenant) != Dynamic)
              && (exists b :: b in Branches(FilterExpression(argument).value, resolve) && BranchVerdict(b, resolve, scopeKeyIsTenant) == No)
            else argument.Some? && forall p | p in argument.value.properties :: !p.Spread?
  {
    var whereProp := if argument.Some? && argument.value.ObjectLiteral? then FirstWhere(argument.value.properties) else None;
    if argument.Some? && argument.value.ObjectLiteral? && whereProp.None? {
      var spread := exists p | p in argument.value.properties :: p.Spread?;
      return Some(if spread then DynamicWhere else MissingFilter);
    }
    var filter := FilterExpression(argument);
    if filter.None? {
      return Some(DynamicWhere);
    }
    var branches := Branches(filter.value, resolve);
    var anyDynamic, anyNo := false, false;
    for i := 0 to |branches|
      invariant anyDynamic <==> exists k | 0 <= k < i :: BranchVerdict(branches[k], resolve, scopeKeyIsTenant) == Dynamic
      invariant anyNo <==> exists k | 0 <= k < i :: BranchVerdict(branches[k], resolve, scopeKeyIsTenant) == No
    {
      var verdict := Dynamic;
      if branches[i].ObjectLiteral? {
        verdict := LiteralNamesTenant(branches[i].properties, resolve, 0, scopeKeyIsTenant);
      }
      anyDynamic := anyDynamic || verdict == Dynamic;
      anyNo := anyNo || verdict == No;
    }
    finding := if anyDynamic then Some(DynamicWhere) else if anyNo then Some(MissingFilter) else None;
  }
}
