/** The names the operator derives for the objects it creates, and when those names can be
    decoded again (utils.go and README.md, "Generating mirrored service names"). */
module Naming {
  import opened Wrappers

  /** The identity of a watched object inside one cluster. */
  datatype Key = Key(namespace: string, name: string)

  const SEPARATOR := "73736d"
  const INFIX := "-73736d-"
  const GLOBAL_PREFIX := "gl"

  function GenerateMirrorName(prefix: string, namespace: string, name: string): string {
    prefix + "-" + namespace + "-" + SEPARATOR + "-" + name
  }

  function GenerateGlobalServiceName(name: string, namespace: string): string {
    "gl-" + namespace + "-" + SEPARATOR + "-" + name
  }

  function GenerateGlobalEndpointSliceName(name: string): string {
    "gl-" + name
  }

  function MirrorName(prefix: string, key: Key): string {
    GenerateMirrorName(prefix, key.namespace, key.name)
  }

  function GlobalName(key: Key): string {
    GenerateGlobalServiceName(key.name, key.namespace)
  }

  function Body(key: Key): string {
    key.namespace + INFIX + key.name
  }

  lemma NameShapes(prefix: string, key: Key)
    ensures MirrorName(prefix, key) == prefix + "-" + Body(key)
    ensures GlobalName(key) == MirrorName(GLOBAL_PREFIX, key)
  {
  }

  /** The documented forms: `<prefix>-<namespace>-73736d-<name>`, the same with `gl`, and `gl-<name>`. */
  lemma NamesSpelledOut(prefix: string, key: Key)
    ensures MirrorName(prefix, key) == prefix + "-" + key.namespace + "-73736d-" + key.name
    ensures GlobalName(key) == "gl-" + key.namespace + "-73736d-" + key.name
    ensures var n := GenerateGlobalEndpointSliceName(key.name); n[..3] == "gl-" && n[3..] == key.name
  {
    assert prefix + "-" + key.namespace + "-" + SEPARATOR + "-" == prefix + "-" + key.namespace + "-73736d-";
    assert "gl-" + key.namespace + "-" + SEPARATOR + "-" == "gl-" + key.namespace + "-73736d-";
  }

  // --- Occurrences of the infix ---------------------------------------------------------

  predicate OccursAt(s: string, i: int) {
    0 <= i && i + |INFIX| <= |s| && s[i..i + |INFIX|] == INFIX
  }

  ghost predicate Contains(s: string) {
    exists i :: OccursAt(s, i)
  }

  /** Two occurrences share at most their outer dash. */
  lemma OccurrencesBarelyOverlap(s: string, i: int, j: int)
    requires OccursAt(s, i) && OccursAt(s, j) && i < j
    ensures i + 7 <= j
  {
    assert s[j] == s[j..j + |INFIX|][0] == '-';
    assert forall x :: i <= x < i + |INFIX| ==> s[x] == s[i..i + |INFIX|][x - i];
  }

  lemma OccursAtInPrefix(part: string, right: string, i: int)
    requires i + |INFIX| <= |part|
    ensures OccursAt(part + right, i) <==> OccursAt(part, i)
  {
    if 0 <= i {
      assert (part + right)[i..i + |INFIX|] == part[i..i + |INFIX|];
    }
  }

  lemma OccursAtInSuffix(left: string, part: string, i: int)
    requires 0 <= i
    ensures OccursAt(left + part, |left| + i) <==> OccursAt(part, i)
  {
    if i + |INFIX| <= |part| {
      assert (left + part)[|left| + i..|left| + i + |INFIX|] == part[i..i + |INFIX|];
    }
  }

  lemma BodyOccurrence(key: Key)
    ensures OccursAt(Body(key), |key.namespace|)
  {
  }

  /** The infix occurs in a generated name left of its own separator exactly when it occurs
      in the namespace followed by a dash. */
  lemma EarlierOccurrences(key: Key)
    ensures (exists i :: OccursAt(Body(key), i) && i < |key.namespace|) <==> Contains(key.namespace + "-")
  {
    var part, rest := key.namespace + "-", INFIX[1..] + key.name;
    assert Body(key) == part + rest;
    BodyOccurrence(key);
    if i :| OccursAt(Body(key), i) && i < |key.namespace| {
      OccurrencesBarelyOverlap(Body(key), i, |key.namespace|);
      OccursAtInPrefix(part, rest, i);
    }
    if i :| OccursAt(part, i) {
      OccursAtInPrefix(part, rest, i);
      assert OccursAt(Body(key), i) && i < |key.namespace|;
    }
  }

  lemma BodyTail(key: Key)
    ensures Body(key) == (key.namespace + INFIX[..7]) + ("-" + key.name)
  {
    assert INFIX == INFIX[..7] + "-";
  }

  /** And right of it exactly when it occurs in a dash followed by the name. */
  lemma LaterOccurrences(key: Key)
    ensures (exists i :: OccursAt(Body(key), i) && |key.namespace| < i) <==> Contains("-" + key.name)
  {
    var rest, part := key.namespace + INFIX[..7], "-" + key.name;
    BodyTail(key);
    BodyOccurrence(key);
    if i :| OccursAt(Body(key), i) && |key.namespace| < i {
      OccurrencesBarelyOverlap(Body(key), |key.namespace|, i);
      OccursAtInSuffix(rest, part, i - |rest|);
      assert OccursAt(part, i - |rest|);
    }
    if i :| OccursAt(part, i) {
      OccursAtInSuffix(rest, part, i);
      assert OccursAt(Body(key), |rest| + i) && |key.namespace| < |rest| + i;
    }
  }

  // --- Decoding ------------------------------------------------------------------------

  function FirstOccurrence(s: string, from: nat): (r: Option<nat>)
    ensures r.Some? ==> from <= r.value && OccursAt(s, r.value)
    ensures forall i :: from <= i < (if r.Some? then r.value else |s|) ==> !OccursAt(s, i)
    decreases |s| - from
  {
    if |s| < from + |INFIX| then None
    else if OccursAt(s, from) then Some(from)
    else FirstOccurrence(s, from + 1)
  }

  function LastOccurrence(s: string, upTo: nat): (r: Option<nat>)
    ensures r.Some? ==> r.value <= upTo && OccursAt(s, r.value)
    ensures forall i :: (if r.Some? then r.value + 1 else 0) <= i <= upTo ==> !OccursAt(s, i)
  {
    if OccursAt(s, upTo) then Some(upTo)
    else if upTo == 0 then None
    else LastOccurrence(s, upTo - 1)
  }

  function SplitAt(body: string, at: Option<nat>): Option<Key>
    requires at.Some? ==> OccursAt(body, at.value)
  {
    match at
    case None => None
    case Some(i) => Some(Key(body[..i], body[i + |INFIX|..]))
  }

  function DecodeFirst(name: string): Option<Key> {
    if "gl-" <= name then SplitAt(name[3..], FirstOccurrence(name[3..], 0)) else None
  }

  function DecodeLast(name: string): Option<Key> {
    if "gl-" <= name then SplitAt(name[3..], LastOccurrence(name[3..], |name|)) else None
  }

  /** Two keys share a body exactly when the other one splits it at some occurrence. */
  lemma SplitIsKey(key: Key, i: nat)
    requires OccursAt(Body(key), i)
    ensures Body(Key(Body(key)[..i], Body(key)[i + |INFIX|..])) == Body(key)
    ensures Key(Body(key)[..i], Body(key)[i + |INFIX|..]) == key <==> i == |key.namespace|
  {
  }

  lemma GlobalNameBody(key: Key)
    ensures "gl-" <= GlobalName(key) && GlobalName(key)[3..] == Body(key)
  {
  }

  /** First-occurrence decoding inverts the generated name exactly when the namespace
      followed by a dash is free of the infix. */
  lemma FirstDecodingExact(key: Key)
    ensures DecodeFirst(GlobalName(key)) == Some(key) <==> !Contains(key.namespace + "-")
  {
    GlobalNameBody(key);
    BodyOccurrence(key);
    EarlierOccurrences(key);
    var first := FirstOccurrence(Body(key), 0);
    SplitIsKey(key, first.value);
  }

  /** Last-occurrence (greedy) decoding inverts it exactly when a dash followed by the name is
      free of the infix. */
  lemma LastDecodingExact(key: Key)
    ensures DecodeLast(GlobalName(key)) == Some(key) <==> !Contains("-" + key.name)
  {
    GlobalNameBody(key);
    BodyOccurrence(key);
    LaterOccurrences(key);
    var last := LastOccurrence(Body(key), |GlobalName(key)|);
    SplitIsKey(key, last.value);
  }

  /** No other key generates the same name. */
  ghost predicate UniquelyNamed(key: Key) {
    forall other: Key :: GlobalName(other) == GlobalName(key) ==> other == key
  }

  lemma SameNameSameBody(prefix: string, k1: Key, k2: Key)
    ensures MirrorName(prefix, k1) == MirrorName(prefix, k2) <==> Body(k1) == Body(k2)
    ensures GlobalName(k1) == GlobalName(k2) <==> Body(k1) == Body(k2)
  {
    NameShapes(prefix, k1);
    NameShapes(prefix, k2);
    GlobalNameBody(k1);
    GlobalNameBody(k2);
    NameShapes(GLOBAL_PREFIX, k1);
    NameShapes(GLOBAL_PREFIX, k2);
    var cut := |prefix + "-"|;
    assert MirrorName(prefix, k1)[cut..] == Body(k1);
    assert MirrorName(prefix, k2)[cut..] == Body(k2);
  }

  /** The name of a key is collision-free exactly when neither side of the separator can be
      mistaken for another split. */
  lemma UniquelyNamedExact(key: Key)
    ensures UniquelyNamed(key) <==> !Contains(key.namespace + "-") && !Contains("-" + key.name)
  {
    EarlierOccurrences(key);
    LaterOccurrences(key);
    if UniquelyNamed(key) {
      forall i | OccursAt(Body(key), i) ensures i == |key.namespace| {
        var other := Key(Body(key)[..i], Body(key)[i + |INFIX|..]);
        SplitIsKey(key, i);
        SameNameSameBody("", other, key);
      }
    } else {
      var other: Key :| GlobalName(other) == GlobalName(key) && other != key;
      SameNameSameBody("", other, key);
      BodyOccurrence(other);
      SplitIsKey(other, |other.namespace|);
      SplitIsKey(key, |other.namespace|);
    }
  }

  /** The condition a set of watched keys must meet for the rest of the model. */
  ghost predicate CollisionFree(keys: iset<Key>) {
    forall k1, k2 :: k1 in keys && k2 in keys && Body(k1) == Body(k2) ==> k1 == k2
  }

  lemma CollisionFreeNames(keys: iset<Key>, prefix: string, k1: Key, k2: Key)
    requires CollisionFree(keys) && k1 in keys && k2 in keys
    ensures MirrorName(prefix, k1) == MirrorName(prefix, k2) <==> k1 == k2
    ensures GlobalName(k1) == GlobalName(k2) <==> k1 == k2
  {
    SameNameSameBody(prefix, k1, k2);
  }

  /** Namespaces free of the infix keep every set of keys collision-free. */
  lemma CleanNamespacesCollisionFree(keys: iset<Key>)
    requires forall k :: k in keys ==> !Contains(k.namespace + "-")
    ensures CollisionFree(keys)
  {
    forall k1, k2 | k1 in keys && k2 in keys && Body(k1) == Body(k2) ensures k1 == k2 {
      SameNameSameBody("", k1, k2);
      FirstDecodingExact(k1);
      FirstDecodingExact(k2);
    }
  }

  /** Section 2.3.1 of RFC 1035 as relaxed by section 2.1 of RFC 1123. */
  predicate IsAlphanumeric(c: char) {
    'a' <= c <= 'z' || '0' <= c <= '9'
  }

  predicate IsDnsLabel(s: string) {
    && 1 <= |s| <= 63
    && IsAlphanumeric(s[0]) && IsAlphanumeric(s[|s| - 1])
    && forall i :: 0 <= i < |s| ==> IsAlphanumeric(s[i]) || s[i] == '-'
  }

  /** Without the condition the names clash, even between valid DNS labels. */
  lemma DnsLabelsCanCollide() returns (k1: Key, k2: Key)
    ensures k1 != k2 && GlobalName(k1) == GlobalName(k2)
    ensures IsDnsLabel(k1.namespace) && IsDnsLabel(k1.name) && IsDnsLabel(k2.namespace) && IsDnsLabel(k2.name)
  {
    k1, k2 := Key("a-73736d-b", "c"), Key("a", "b-73736d-c");
    assert Body(k1) == "a-73736d-b-73736d-c" == Body(k2);
    SameNameSameBody("", k1, k2);
    assert k1.namespace[0] != k2.name[0];
  }

  // --- Prefixes ------------------------------------------------------------------------

  /** A name lies in the space of a prefix. */
  predicate InSpace(prefix: string, name: string) {
    prefix + "-" <= name
  }

  predicate PrefixesClash(p1: string, p2: string) {
    p1 + "-" <= p2 + "-" || p2 + "-" <= p1 + "-"
  }

  lemma MirrorNameInSpace(prefix: string, key: Key)
    ensures InSpace(prefix, MirrorName(prefix, key))
  {
  }

  lemma SpacesDisjoint(p1: string, p2: string, name: string)
    requires InSpace(p1, name) && InSpace(p2, name)
    ensures PrefixesClash(p1, p2)
  {
  }

  lemma ClashGivesCollision(p1: string, p2: string) returns (k1: Key, k2: Key)
    requires p1 + "-" <= p2 + "-"
    ensures MirrorName(p1, k1) == MirrorName(p2, k2)
  {
    var a, b := p1 + "-", p2 + "-";
    var rest := b[|a|..];
    k2 := Key("n", "s");
    k1 := Key(rest + "n", "s");
    NameShapes(p1, k1);
    NameShapes(p2, k2);
    assert b == a + rest;
    assert MirrorName(p1, k1) == a + (rest + "n" + INFIX + "s");
    assert MirrorName(p2, k2) == (a + rest) + ("n" + INFIX + "s");
  }

  /** Two prefixes can produce the same mirror name exactly when one, extended with a dash,
      is a prefix of the other. */
  lemma PrefixIsolationExact(p1: string, p2: string)
    ensures (exists k1, k2 :: MirrorName(p1, k1) == MirrorName(p2, k2)) <==> PrefixesClash(p1, p2)
  {
    if k1, k2 :| MirrorName(p1, k1) == MirrorName(p2, k2) {
      MirrorNameInSpace(p1, k1);
      MirrorNameInSpace(p2, k2);
      SpacesDisjoint(p1, p2, MirrorName(p1, k1));
    }
    if p1 + "-" <= p2 + "-" {
      var k1, k2 := ClashGivesCollision(p1, p2);
    } else if p2 + "-" <= p1 + "-" {
      var k2, k1 := ClashGivesCollision(p2, p1);
      assert MirrorName(p1, k1) == MirrorName(p2, k2);
    }
  }
}
