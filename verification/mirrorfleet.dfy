/** The mirror runners of all remote clusters side by side (main.go, mirror_runner.go). */
module MirrorFleet {
  import opened Naming
  import opened GlobalStore
  import opened Controller
  import opened Kube
  import opened Mirror
  import opened Fleets

  ghost function ServiceKinds(prefixes: map<string, string>, keys: iset<Key>): Kinds<RemoteService, LocalService> {
    map c | c in prefixes :: ServiceKind(prefixes[c], keys)
  }

  ghost function EndpointsKinds(prefixes: map<string, string>,
                                keys: iset<Key>): Kinds<RemoteEndpoints, LocalEndpoints> {
    map c | c in prefixes :: EndpointsKind(prefixes[c], keys)
  }

  const SYNC_LABEL := "mirror-svc-prefix-sync"

  /** What others may write beside the mirrors: global services, for one, carry no sync label. */
  ghost function UnlabelledService(): LocalService -> bool {
    (l: LocalService) => SYNC_LABEL !in l.labels
  }

  ghost function UnlabelledEndpoints(): LocalEndpoints -> bool {
    (l: LocalEndpoints) => SYNC_LABEL !in l.labels
  }

  ghost predicate NoPrefixesClash(prefixes: map<string, string>) {
    forall c, d :: c in prefixes && d in prefixes && c != d ==> !PrefixesClash(prefixes[c], prefixes[d])
  }

  lemma SpacesOverlap(p1: string, p2: string) returns (n: string)
    requires PrefixesClash(p1, p2)
    ensures InSpace(p1, n) && InSpace(p2, n)
  {
    n := if p1 + "-" <= p2 + "-" then p2 + "-" else p1 + "-";
  }

  lemma LabelsTell(p1: string, p2: string, labels: map<string, string>)
    requires HasLabels(labels, MirrorLabels(p1)) && HasLabels(labels, MirrorLabels(p2))
    ensures p1 == p2 && SYNC_LABEL in labels
  {
  }

  /** Runners that own the names of their prefix and select the labels of their prefix. */
  ghost predicate ByPrefix<V(!new), L(!new)>(prefixes: map<string, string>, kinds: Kinds<V, L>,
                                             labels: L -> map<string, string>) {
    && kinds.Keys == prefixes.Keys
    && forall c :: c in kinds ==>
         && Lawful(kinds[c])
         && (forall n :: kinds[c].owns(n) <==> InSpace(prefixes[c], n))
         && (forall l :: kinds[c].labelled(l) <==> HasLabels(labels(l), MirrorLabels(prefixes[c])))
  }

  lemma ByPrefixApartExactly<V(!new), L(!new)>(prefixes: map<string, string>, kinds: Kinds<V, L>,
                                               labels: L -> map<string, string>, alien: L -> bool)
    requires ByPrefix(prefixes, kinds, labels) && forall l :: alien(l) ==> SYNC_LABEL !in labels(l)
    ensures Apart(kinds, alien) <==> NoPrefixesClash(prefixes)
  {
    if NoPrefixesClash(prefixes) {
      forall c, d, n | c in kinds && d in kinds && c != d && kinds[c].owns(n) ensures !kinds[d].owns(n) {
        if kinds[d].owns(n) {
          SpacesDisjoint(prefixes[c], prefixes[d], n);
        }
      }
      forall c, d, l | c in kinds && d in kinds && c != d && kinds[c].labelled(l) ensures !kinds[d].labelled(l) {
        if kinds[d].labelled(l) {
          LabelsTell(prefixes[c], prefixes[d], labels(l));
        }
      }
      forall c, l | c in kinds && alien(l) ensures !kinds[c].labelled(l) {
        if kinds[c].labelled(l) {
          LabelsTell(prefixes[c], prefixes[c], labels(l));
        }
      }
    } else {
      var c, d :| c in prefixes && d in prefixes && c != d && PrefixesClash(prefixes[c], prefixes[d]);
      var n := SpacesOverlap(prefixes[c], prefixes[d]);
      assert kinds[c].owns(n) && kinds[d].owns(n);
    }
  }

  /** The service runners, and the Endpoints runners, are apart exactly when no prefix, extended with a
      dash, is a prefix of another one extended alike. */
  lemma MirrorRunnersApartExactly(prefixes: map<string, string>, keys: iset<Key>)
    requires CollisionFree(keys)
    ensures Apart(ServiceKinds(prefixes, keys), UnlabelledService()) <==> NoPrefixesClash(prefixes)
    ensures Apart(EndpointsKinds(prefixes, keys), UnlabelledEndpoints()) <==> NoPrefixesClash(prefixes)
  {
    forall c | c in prefixes
      ensures Lawful(ServiceKind(prefixes[c], keys)) && Lawful(EndpointsKind(prefixes[c], keys))
    {
      MirrorKindsLawful(prefixes[c], keys);
    }
    ByPrefixApartExactly(prefixes, ServiceKinds(prefixes, keys), (l: LocalService) => l.labels, UnlabelledService());
    ByPrefixApartExactly(prefixes, EndpointsKinds(prefixes, keys), (l: LocalEndpoints) => l.labels,
                         UnlabelledEndpoints());
  }

  /** Over every run of the mirror runners, the next step of any of them, its sync included, leaves a
      global service exactly as it is, provided no prefix clashes with `gl`. */
  lemma GlobalServicesUntouched(prefixes: map<string, string>, keys: iset<Key>, f: Fleet<RemoteService, LocalService>,
                                run: seq<Event<RemoteService, LocalService>>,
                                e: Event<RemoteService, LocalService>, key: Key)
    requires CollisionFree(keys) && NoPrefixesClash(prefixes)
    requires forall c :: c in prefixes ==> !PrefixesClash(prefixes[c], GLOBAL_PREFIX)
    requires var kinds, alien := ServiceKinds(prefixes, keys), UnlabelledService();
             Fleets.Initial(kinds, alien, f) && Fleets.ValidRun(kinds, alien, f, run)
             && Fleets.Enabled(kinds, alien, Fleets.Final(kinds, alien, f, run), e) && e.By?
    ensures var kinds, alien := ServiceKinds(prefixes, keys), UnlabelledService();
            var end := Fleets.Final(kinds, alien, f, run);
            var after := Fleets.Next(kinds, alien, end, e);
            var n := GlobalName(key);
            (n in after.local <==> n in end.local) && (n in end.local ==> after.local[n] == end.local[n])
  {
    var kinds, alien, n := ServiceKinds(prefixes, keys), UnlabelledService(), GlobalName(key);
    MirrorRunnersApartExactly(prefixes, keys);
    ReachableInv(kinds, alien, f, run);
    var end := Fleets.Final(kinds, alien, f, run);
    NameShapes(GLOBAL_PREFIX, key);
    MirrorNameInSpace(GLOBAL_PREFIX, key);
    if InSpace(prefixes[e.runner], n) {
      SpacesDisjoint(prefixes[e.runner], GLOBAL_PREFIX, n);
    }
    StepStaysInOwnNames(kinds[e.runner], View(end, e.runner), e.action, n);
  }
}
