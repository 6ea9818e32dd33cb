/** The registry of remote servers by session: it owns the infos it has accepted, and deletes
    each of them once. */
module SessionRegistry {

  /** The session of an info does not change once it is registered; the rest of it may. */
  class Info {
    const sessionID: nat
    var serverID: nat

    constructor (sessionID: nat, serverID: nat)
      ensures this.sessionID == sessionID && this.serverID == serverID
    {
      this.sessionID, this.serverID := sessionID, serverID;
    }
  }

  /** Every info is kept under its own session, and those accepted so far are the ones kept and
      the ones deleted, each of them once. */
  ghost predicate Accounted(servers: map<nat, Info>, accepted: seq<Info>, deleted: seq<Info>) {
    && (forall k :: k in servers ==> servers[k].sessionID == k && servers[k] in accepted && servers[k] !in deleted)
    && (forall a :: a in accepted ==> a in deleted || (a.sessionID in servers && servers[a.sessionID] == a))
    && (forall a :: a in deleted ==> a in accepted)
    && (forall i, j :: 0 <= i < j < |accepted| ==> accepted[i] != accepted[j])
    && (forall i, j :: 0 <= i < j < |deleted| ==> deleted[i] != deleted[j])
  }

  lemma RemovedIsAccounted(servers: map<nat, Info>, accepted: seq<Info>, deleted: seq<Info>, k: nat)
    requires Accounted(servers, accepted, deleted) && k in servers
    ensures Accounted(servers - {k}, accepted, deleted + [servers[k]])
  {
    var d := deleted + [servers[k]];
    forall a | a in accepted ensures a in d || (a.sessionID in servers - {k} && servers[a.sessionID] == a) {
      if a !in deleted && a.sessionID == k {
        assert d[|d| - 1] == a;
      } else if a in deleted {
        assert a in d;
      }
    }
  }

  /** With nothing left in the registry, what was accepted is what was deleted. */
  lemma AllDeleted(accepted: seq<Info>, deleted: seq<Info>)
    requires Accounted(map[], accepted, deleted)
    ensures multiset(deleted) == multiset(accepted)
  {
    forall a: Info ensures multiset(deleted)[a] == multiset(accepted)[a] {
      Once(accepted, a);
      Once(deleted, a);
    }
  }

  lemma {:induction false} Once(s: seq<Info>, a: Info)
    requires forall i, j :: 0 <= i < j < |s| ==> s[i] != s[j]
    ensures multiset(s)[a] == if a in s then 1 else 0
  {
    if s != [] {
      var n := |s| - 1;
      Once(s[..n], a);
      assert s == s[..n] + [s[n]];
    }
  }

  /** Where an iteration over the rest of a map goes next. */
  function Least(keys: set<nat>): (k: nat)
    requires keys != {}
    ensures k in keys && forall j :: j in keys ==> k <= j
  {
    LeastExists(keys);
    var k :| k in keys && forall j :: j in keys ==> k <= j;
    k
  }

  lemma LeastExists(keys: set<nat>)
    requires keys != {}
    ensures exists k :: k in keys && forall j :: j in keys ==> k <= j
  {
    var k := LeastOf(keys);
  }

  lemma {:induction false} LeastOf(keys: set<nat>) returns (k: nat)
    requires keys != {}
    ensures k in keys && forall j :: j in keys ==> k <= j
  {
    var x :| x in keys;
    k := x;
    if keys != {x} {
      var l := LeastOf(keys - {x});
      k := if x < l then x else l;
      assert forall j :: j in keys ==> j == x || j in keys - {x};
    }
  }

  class Registry {
    var servers: map<nat, Info>
    ghost var accepted: seq<Info>
    ghost var deleted: seq<Info>

    ghost predicate Valid()
      reads this
    {
      Accounted(servers, accepted, deleted)
    }

    constructor ()
      ensures Valid() && servers == map[] && accepted == deleted == []
    {
      servers, accepted, deleted := map[], [], [];
    }

    /** A session that is taken is not replaced; the caller keeps the info then. */
    method Add(info: Info) returns (added: bool)
      requires Valid() && info !in deleted
      modifies this
      ensures Valid() && deleted == old(deleted)
      ensures added <==> info.sessionID !in old(servers)
      ensures servers == if added then old(servers)[info.sessionID := info] else old(servers)
      ensures accepted == if added then old(accepted) + [info] else old(accepted)
    {
      added := info.sessionID !in servers;
      if added {
        servers := servers[info.sessionID := info];
        accepted := accepted + [info];
      }
    }

    method Remove(sessionID: nat) returns (removed: bool)
      requires Valid()
      modifies this
      ensures Valid() && accepted == old(accepted)
      ensures removed <==> sessionID in old(servers)
      ensures servers == old(servers) - {sessionID}
      ensures deleted == if removed then old(deleted) + [old(servers)[sessionID]] else old(deleted)
    {
      removed := sessionID in servers;
      if removed {
        RemovedIsAccounted(servers, accepted, deleted, sessionID);
        deleted := deleted + [servers[sessionID]];
        servers := servers - {sessionID};
      }
    }

    method BySessionID(sessionID: nat) returns (info: Info?)
      requires Valid()
      ensures info == null <==> sessionID !in servers
      ensures info != null ==> info == servers[sessionID] && info.sessionID == sessionID
    {
      info := if sessionID in servers then servers[sessionID] else null;
    }

    /** The first match in the order of the sessions. */
    method ByServerID(serverID: nat) returns (info: Info?)
      requires Valid()
      ensures info == null <==> forall k :: k in servers ==> servers[k].serverID != serverID
      ensures info != null ==> info.sessionID in servers && servers[info.sessionID] == info
      ensures info != null ==> info.serverID == serverID
      ensures info != null ==> forall k :: k in servers && servers[k].serverID == serverID ==> info.sessionID <= k
    {
      var rest := servers.Keys;
      while rest != {}
        invariant rest <= servers.Keys
        invariant forall k :: k in servers && k !in rest ==> servers[k].serverID != serverID
      {
        var k := Least(rest);
        if servers[k].serverID == serverID {
          return servers[k];
        }
        rest := rest - {k};
      }
      return null;
    }

    /** The destructor: by then every accepted info has been deleted, and none twice. */
    method Destroy()
      requires Valid()
      modifies this
      ensures Valid() && servers == map[] && accepted == old(accepted)
      ensures multiset(deleted) == multiset(accepted)
    {
      var rest := servers.Keys;
      ghost var left := servers;
      while rest != {}
        invariant rest <= servers.Keys && left.Keys == rest && servers == old(servers)
        invariant forall k :: k in rest ==> left[k] == servers[k]
        invariant accepted == old(accepted) && Accounted(left, accepted, deleted)
      {
        var k := Least(rest);
        RemovedIsAccounted(left, accepted, deleted, k);
        deleted := deleted + [servers[k]];
        rest, left := rest - {k}, left - {k};
      }
      assert left == map[];
      servers := map[];
      AllDeleted(accepted, deleted);
    }
  }
}
