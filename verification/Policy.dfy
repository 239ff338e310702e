/** The child-tailnet policy: its normal form, what the normal form means, and the one policy accepted. */
module Policy {
  import opened Ordering

  /** JSON values the policy carries but does not interpret, as their text. */
  type Json = string

  type Names = seq<string>

  datatype Grant = Grant(src: Names, dst: Names, ip: Names)

  datatype Wire = Wire(
    groups: map<string, Names>,
    hosts: map<string, string>,
    tagOwners: map<string, Names>,
    grants: seq<Grant>,
    acls: seq<Json>,
    ssh: seq<Json>,
    nodeAttrs: seq<Json>,
    routes: map<string, Names>,
    exitNode: Names,
    tests: seq<Json>)

  const EMPTY: Wire := Wire(map[], map[], map[], [], [], [], [], map[], [], [])

  // ---------------------------------------------------------------- orders

  function Characters(): Order<char> { (a, b) => a <= b }

  function Strings(): Order<string> { Dictionary(Characters()) }

  function NameLists(): Order<Names> { Dictionary(Strings()) }

  function Row(g: Grant): seq<Names> { [g.src, g.dst, g.ip] }

  /** Field by field: source, then destination, then address. */
  function Grants(): Order<Grant> {
    (a: Grant, b: Grant) => Precedes(NameLists(), Row(a), Row(b))
  }

  lemma NameOrdersAreTotal()
    ensures IsTotalOrder(Strings()) && IsTotalOrder(NameLists())
  {
    assert IsTotalOrder(Characters());
    DictionaryIsTotal(Characters());
    DictionaryIsTotal(Strings());
  }

  lemma RowsTellGrantsApart(a: Grant, b: Grant)
    requires Row(a) == Row(b)
    ensures a == b
  {
    assert Row(a)[0] == Row(b)[0] && Row(a)[1] == Row(b)[1] && Row(a)[2] == Row(b)[2];
  }

  lemma GrantOrderIsTotal()
    ensures IsTotalOrder(Grants())
  {
    NameOrdersAreTotal();
    var order, names := Grants(), NameLists();
    forall a, b ensures order(a, b) || order(b, a) {
      PrecedesIsTotal(names, Row(a), Row(b));
    }
    forall a, b | order(a, b) && order(b, a) ensures a == b {
      PrecedesIsTotal(names, Row(a), Row(b));
      RowsTellGrantsApart(a, b);
    }
    forall a, b, c | order(a, b) && order(b, c) ensures order(a, c) {
      PrecedesIsTransitive(names, Row(a), Row(b), Row(c));
    }
  }

  // ---------------------------------------------------------------- the normal form

  function NormalNames(names: Names): Names {
    Normal(Strings(), names)
  }

  function NormalValues(m: map<string, Names>): map<string, Names> {
    map key | key in m :: NormalNames(m[key])
  }

  function NormalGrant(g: Grant): Grant {
    Grant(NormalNames(g.src), NormalNames(g.dst), NormalNames(g.ip))
  }

  function Normalized(grants: seq<Grant>): seq<Grant> {
    seq(|grants|, i requires 0 <= i < |grants| => NormalGrant(grants[i]))
  }

  function NormalGrants(grants: seq<Grant>): seq<Grant> {
    Normal(Grants(), Normalized(grants))
  }

  function NormalWire(w: Wire): Wire {
    w.(groups := NormalValues(w.groups),
       tagOwners := NormalValues(w.tagOwners),
       routes := NormalValues(w.routes),
       exitNode := NormalNames(w.exitNode),
       grants := NormalGrants(w.grants))
  }

  /** Sorts and deduplicates every value of the map in place. */
  method NormalizeMapValues(m: map<string, Names>) returns (normal: map<string, Names>)
    ensures normal == NormalValues(m)
  {
    normal := m;
    var pending := m.Keys;
    while pending != {}
      invariant pending <= normal.Keys == m.Keys
      invariant forall key | key in pending :: normal[key] == m[key]
      invariant forall key | key in m.Keys - pending :: normal[key] == NormalNames(m[key])
      decreases pending
    {
      var key :| key in pending;
      normal := normal[key := NormalNames(normal[key])];
      pending := pending - {key};
    }
  }

  method FromWire(w: Wire) returns (wire: Wire)
    ensures wire == NormalWire(w)
  {
    wire := w;
    var groups := NormalizeMapValues(wire.groups);
    wire := wire.(groups := groups);
    var tagOwners := NormalizeMapValues(wire.tagOwners);
    wire := wire.(tagOwners := tagOwners);
    var routes := NormalizeMapValues(wire.routes);
    wire := wire.(routes := routes);
    wire := wire.(exitNode := NormalNames(wire.exitNode));
    var grants := wire.grants;
    for i := 0 to |grants|
      invariant |grants| == |w.grants|
      invariant forall j | 0 <= j < |grants| :: grants[j] == if j < i then NormalGrant(w.grants[j]) else w.grants[j]
    {
      grants := grants[i := NormalGrant(grants[i])];
    }
    assert grants == Normalized(w.grants);
    wire := wire.(grants := Normal(Grants(), grants));
  }

  method SemanticallyMatches(p: Wire, q: Wire) returns (matches: bool)
    ensures matches <==> Meaning(p) == Meaning(q)
  {
    var left := FromWire(p);
    var right := FromWire(q);
    NormalFormIsTheMeaning(p, q);
    matches := left == right;
  }

  // ---------------------------------------------------------------- what a policy means

  datatype Access = Access(src: set<string>, dst: set<string>, ip: set<string>)

  datatype Semantics = Semantics(
    groups: map<string, set<string>>,
    hosts: map<string, string>,
    tagOwners: map<string, set<string>>,
    grants: set<Access>,
    acls: seq<Json>,
    ssh: seq<Json>,
    nodeAttrs: seq<Json>,
    routes: map<string, set<string>>,
    exitNode: set<string>,
    tests: seq<Json>)

  function SetValues(m: map<string, Names>): map<string, set<string>> {
    map key | key in m :: Elements(m[key])
  }

  function AccessOf(g: Grant): Access {
    Access(Elements(g.src), Elements(g.dst), Elements(g.ip))
  }

  function AccessesOf(grants: seq<Grant>): set<Access> {
    set i | 0 <= i < |grants| :: AccessOf(grants[i])
  }

  /** Set-like lists as sets, grants as a set of triples of sets, everything else as it stands. */
  function Meaning(w: Wire): Semantics {
    Semantics(SetValues(w.groups), w.hosts, SetValues(w.tagOwners), AccessesOf(w.grants), w.acls, w.ssh,
              w.nodeAttrs, SetValues(w.routes), Elements(w.exitNode), w.tests)
  }

  lemma NamesMatch(a: Names, b: Names)
    ensures NormalNames(a) == NormalNames(b) <==> Elements(a) == Elements(b)
    ensures Elements(NormalNames(a)) == Elements(a)
  {
    NameOrdersAreTotal();
    NormalIsCanonical(Strings(), a, b);
    NormalForm(Strings(), a);
  }

  lemma ValuesHaveTheKeys(m: map<string, Names>)
    ensures NormalValues(m).Keys == m.Keys && SetValues(m).Keys == m.Keys
  {
  }

  lemma MapsMatch<X, Y>(a: map<string, X>, b: map<string, X>, c: map<string, Y>, d: map<string, Y>)
    requires a.Keys == c.Keys && b.Keys == d.Keys
    requires forall key | key in a && key in b :: a[key] == b[key] <==> c[key] == d[key]
    ensures a == b <==> c == d
  {
  }

  lemma ValuesMatch(m: map<string, Names>, n: map<string, Names>)
    ensures NormalValues(m) == NormalValues(n) <==> SetValues(m) == SetValues(n)
  {
    ValuesHaveTheKeys(m);
    ValuesHaveTheKeys(n);
    forall key | key in m && key in n
      ensures NormalValues(m)[key] == NormalValues(n)[key] <==> SetValues(m)[key] == SetValues(n)[key]
    {
      NamesMatch(m[key], n[key]);
    }
    MapsMatch(NormalValues(m), NormalValues(n), SetValues(m), SetValues(n));
  }

  lemma GrantMatches(g: Grant, h: Grant)
    ensures NormalGrant(g) == NormalGrant(h) <==> AccessOf(g) == AccessOf(h)
    ensures AccessOf(NormalGrant(g)) == AccessOf(g)
  {
    NamesMatch(g.src, h.src);
    NamesMatch(g.dst, h.dst);
    NamesMatch(g.ip, h.ip);
  }

  lemma ContainedAlike(a: seq<Grant>, b: seq<Grant>)
    ensures Elements(Normalized(a)) <= Elements(Normalized(b)) <==> AccessesOf(a) <= AccessesOf(b)
  {
    if AccessesOf(a) <= AccessesOf(b) {
      forall g | g in Normalized(a) ensures g in Normalized(b) {
        var i :| 0 <= i < |a| && g == Normalized(a)[i];
        assert AccessOf(a[i]) in AccessesOf(a);
        var j :| 0 <= j < |b| && AccessOf(b[j]) == AccessOf(a[i]);
        GrantMatches(a[i], b[j]);
        assert Normalized(b)[j] == g;
      }
    }
    if Elements(Normalized(a)) <= Elements(Normalized(b)) {
      forall access | access in AccessesOf(a) ensures access in AccessesOf(b) {
        var i :| 0 <= i < |a| && access == AccessOf(a[i]);
        assert Normalized(a)[i] in Elements(Normalized(a));
        var j :| 0 <= j < |b| && Normalized(b)[j] == Normalized(a)[i];
        GrantMatches(a[i], b[j]);
      }
    }
  }

  lemma GrantsMatch(a: seq<Grant>, b: seq<Grant>)
    ensures NormalGrants(a) == NormalGrants(b) <==> AccessesOf(a) == AccessesOf(b)
  {
    GrantOrderIsTotal();
    NormalIsCanonical(Grants(), Normalized(a), Normalized(b));
    ContainedAlike(a, b);
    ContainedAlike(b, a);
  }

  /** Two policies share a normal form exactly when they mean the same. */
  lemma NormalFormIsTheMeaning(p: Wire, q: Wire)
    ensures NormalWire(p) == NormalWire(q) <==> Meaning(p) == Meaning(q)
  {
    ValuesMatch(p.groups, q.groups);
    ValuesMatch(p.tagOwners, q.tagOwners);
    ValuesMatch(p.routes, q.routes);
    NamesMatch(p.exitNode, q.exitNode);
    GrantsMatch(p.grants, q.grants);
  }

  /** Normalizing keeps the meaning, and so normalizing again changes nothing. */
  lemma NormalizingKeepsTheMeaning(w: Wire)
    ensures Meaning(NormalWire(w)) == Meaning(w)
    ensures NormalWire(NormalWire(w)) == NormalWire(w)
  {
    NormalValuesKeepTheirSets(w.groups);
    NormalValuesKeepTheirSets(w.tagOwners);
    NormalValuesKeepTheirSets(w.routes);
    NamesMatch(w.exitNode, w.exitNode);
    NormalGrantsKeepTheirAccess(w.grants);
    NormalFormIsTheMeaning(NormalWire(w), w);
  }

  lemma NormalValuesKeepTheirSets(m: map<string, Names>)
    ensures SetValues(NormalValues(m)) == SetValues(m)
  {
    forall key | key in m ensures Elements(NormalNames(m[key])) == Elements(m[key]) {
      NamesMatch(m[key], m[key]);
    }
  }

  lemma NormalizedKeepAccess(grants: seq<Grant>)
    ensures AccessesOf(Normalized(grants)) == AccessesOf(grants)
  {
    forall i | 0 <= i < |grants| ensures AccessOf(Normalized(grants)[i]) == AccessOf(grants[i]) {
      GrantMatches(grants[i], grants[i]);
    }
    assert forall i | 0 <= i < |grants| :: AccessOf(grants[i]) in AccessesOf(Normalized(grants));
  }

  lemma SameGrantsSameAccess(a: seq<Grant>, b: seq<Grant>)
    requires Elements(a) <= Elements(b)
    ensures AccessesOf(a) <= AccessesOf(b)
  {
    forall i | 0 <= i < |a| ensures AccessOf(a[i]) in AccessesOf(b) {
      assert a[i] in Elements(a);
      var j :| 0 <= j < |b| && b[j] == a[i];
    }
  }

  lemma NormalGrantsKeepTheirAccess(grants: seq<Grant>)
    ensures AccessesOf(NormalGrants(grants)) == AccessesOf(grants)
  {
    GrantOrderIsTotal();
    NormalForm(Grants(), Normalized(grants));
    SameGrantsSameAccess(NormalGrants(grants), Normalized(grants));
    SameGrantsSameAccess(Normalized(grants), NormalGrants(grants));
    NormalizedKeepAccess(grants);
  }

  // ---------------------------------------------------------------- the one accepted policy

  const GAMEPLAY_PORT_RULE := "udp:41643"
  const RIDER_TAG_PREFIX := "tag:spurfire-lobby-"

  predicate IsAlphanumeric(c: char) {
    'a' <= c <= 'z' || 'A' <= c <= 'Z' || '0' <= c <= '9'
  }

  predicate IsRiderTag(tag: string) {
    && RIDER_TAG_PREFIX <= tag
    && |RIDER_TAG_PREFIX| < |tag| <= 128
    && forall i | |RIDER_TAG_PREFIX| <= i < |tag| :: IsAlphanumeric(tag[i]) || tag[i] == '-'
  }

  datatype Generated = InvalidPolicy | Policy(wire: Wire)

  function RestrictiveRiders(tag: string): Generated {
    if !IsRiderTag(tag) then InvalidPolicy
    else Policy(EMPTY.(tagOwners := map[tag := []], grants := [Grant([tag], [tag], [GAMEPLAY_PORT_RULE])]))
  }

  /** ASCII letters, digits and the hyphen. */
  predicate IsTagByte(c: int) {
    c == 45 || 48 <= c <= 57 || 65 <= c <= 90 || 97 <= c <= 122
  }

  predicate IsTagSuffix(suffix: string) {
    0 < |suffix| < 110 && forall i | 0 <= i < |suffix| :: IsTagByte(suffix[i] as int)
  }

  /** A policy is generated exactly for a lobby tag with 1 to 109 such characters after its prefix. */
  lemma GeneratedExactlyWhen(tag: string)
    ensures RestrictiveRiders(tag).Policy? <==>
              exists suffix :: tag == "tag:spurfire-lobby-" + suffix && IsTagSuffix(suffix)
  {
    if RestrictiveRiders(tag).Policy? {
      var suffix := tag[19..];
      assert forall i | 0 <= i < |suffix| :: suffix[i] == tag[19 + i];
      assert tag == "tag:spurfire-lobby-" + suffix;
    }
    if suffix :| tag == "tag:spurfire-lobby-" + suffix && IsTagSuffix(suffix) {
      assert forall i | 19 <= i < |tag| :: tag[i] == suffix[i - 19];
    }
  }

  /** The meaning of the generated policy: same-tag peers, one UDP port, and nothing else at all. */
  function OnlySameTagGameplay(tag: string): Semantics {
    Semantics(map[], map[], map[tag := {}], {Access({tag}, {tag}, {"udp:41643"})}, [], [], [], map[], {}, [])
  }

  lemma GeneratedPolicyMeans(tag: string)
    requires IsRiderTag(tag)
    ensures Meaning(RestrictiveRiders(tag).wire) == OnlySameTagGameplay(tag)
  {
    var wire := RestrictiveRiders(tag).wire;
    assert Elements([tag]) == {tag} && Elements([GAMEPLAY_PORT_RULE]) == {GAMEPLAY_PORT_RULE};
    assert AccessesOf(wire.grants) == {AccessOf(wire.grants[0])};
    NoElements(wire.tagOwners[tag]);
    assert SetValues(wire.tagOwners) == map[tag := {}];
  }

  /** A readback matches the generated policy exactly when it allows that one grant and nothing more. */
  lemma ReadbackMatchesExactlyWhen(readback: Wire, tag: string)
    requires IsRiderTag(tag)
    ensures NormalWire(readback) == NormalWire(RestrictiveRiders(tag).wire)
            <==> Meaning(readback) == OnlySameTagGameplay(tag)
  {
    NormalFormIsTheMeaning(readback, RestrictiveRiders(tag).wire);
    GeneratedPolicyMeans(tag);
  }
}
