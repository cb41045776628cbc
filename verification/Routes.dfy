/** Transactional client setup (internal/platform/client_linux.go): address and route commands
    over an abstract table, the undo log, and where packets go afterwards. */
module Routes {
  import opened Prelude
  import opened Prefixes

  datatype Key = Address(addr: Addr, dev: string) | Route4(prefix: Prefix) | Route6(upper: bool)

  datatype Entry = Entry(via: Option<Addr>, dev: string)

  type Table = map<Key, Entry>

  /** One `replace` command, with the gateway its undo command names (None: any). */
  datatype Op = Op(key: Key, entry: Entry, undoVia: Option<Addr>)
  {
    /** The undo command matches what the command installs. */
    predicate Undoable() { undoVia.None? || undoVia == entry.via }

    predicate Matches(e: Entry) { e.dev == entry.dev && (undoVia.None? || e.via == undoVia) }
  }

  function Replaced(t: Table, op: Op): Table { t[op.key := op.entry] }

  /** `del` of a matching entry; a missing one is ignored (client_linux.go:149). */
  function Deleted(t: Table, op: Op): Table {
    if op.key in t && op.Matches(t[op.key]) then t - {op.key} else t
  }

  /** Undoing a command takes away what it installed and nothing else: the entry at its key, if it is
      still on the command's device and, where the undo names a gateway, via that gateway. */
  lemma DeletesExactly(t: Table, op: Op, k: Key)
    ensures k in Deleted(t, op) <==>
            k in t && !(k == op.key && t[k].dev == op.entry.dev && (op.undoVia == None || t[k].via == op.undoVia))
    ensures k in Deleted(t, op) ==> Deleted(t, op)[k] == t[k]
  {}

  ghost function Apply(t: Table, ops: seq<Op>): Table {
    if |ops| == 0 then t else Replaced(Apply(t, ops[..|ops| - 1]), ops[|ops| - 1])
  }

  /** The undo log, last entry first. */
  ghost function UndoAll(t: Table, ops: seq<Op>): Table {
    if |ops| == 0 then t else UndoAll(Deleted(t, ops[|ops| - 1]), ops[..|ops| - 1])
  }

  ghost function Keys(ops: seq<Op>): set<Key> {
    if |ops| == 0 then {} else Keys(ops[..|ops| - 1]) + {ops[|ops| - 1].key}
  }

  ghost predicate AllUndoable(ops: seq<Op>) { forall i :: 0 <= i < |ops| ==> ops[i].Undoable() }

  /** Whatever the table holds at a key of the log, some entry of the log removes it. */
  ghost predicate Covered(t: Table, ops: seq<Op>) {
    forall k :: k in t && k in Keys(ops) ==> exists i :: 0 <= i < |ops| && ops[i].key == k && ops[i].Matches(t[k])
  }

  lemma {:induction false} AppliedIsCovered(t: Table, ops: seq<Op>)
    requires AllUndoable(ops)
    ensures Covered(Apply(t, ops), ops)
    ensures Apply(t, ops) - Keys(ops) == t - Keys(ops)
  {
    if |ops| > 0 {
      var n := |ops| - 1;
      var init, last := ops[..n], ops[n];
      assert forall i :: 0 <= i < n ==> init[i] == ops[i];
      AppliedIsCovered(t, init);
      var before, after := Apply(t, init), Apply(t, ops);
      forall k | k in after && k in Keys(ops)
        ensures exists i :: 0 <= i < |ops| && ops[i].key == k && ops[i].Matches(after[k])
      {
        if k == last.key {
          assert ops[n].key == k && ops[n].Matches(after[k]);
        } else {
          var i :| 0 <= i < n && init[i].key == k && init[i].Matches(before[k]);
          assert ops[i].key == k && ops[i].Matches(after[k]);
        }
      }
      assert after - Keys(ops) == (before - Keys(init)) - {last.key};
      assert t - Keys(ops) == (t - Keys(init)) - {last.key};
    }
  }

  /** Undoing a covered log removes exactly its keys. */
  lemma {:induction false} UndoRemovesTheKeys(t: Table, ops: seq<Op>)
    requires Covered(t, ops)
    ensures UndoAll(t, ops) == t - Keys(ops)
    decreases |ops|
  {
    if |ops| > 0 {
      var n := |ops| - 1;
      var init, last := ops[..n], ops[n];
      var less := Deleted(t, last);
      forall k | k in less && k in Keys(init)
        ensures exists i :: 0 <= i < n && init[i].key == k && init[i].Matches(less[k])
      {
        var i :| 0 <= i < |ops| && ops[i].key == k && ops[i].Matches(t[k]);
        assert i != n;
        assert init[i] == ops[i];
      }
      UndoRemovesTheKeys(less, init);
      if last.key in less {
        var i :| 0 <= i < |ops| && ops[i].key == last.key && ops[i].Matches(t[last.key]);
        assert i != n;
        KeyIsListed(init, i);
      }
      assert less - Keys(init) == t - Keys(ops);
    }
  }

  lemma {:induction false} KeyIsListed(ops: seq<Op>, i: nat)
    requires i < |ops|
    ensures ops[i].key in Keys(ops)
  {
    if i < |ops| - 1 {
      KeyIsListed(ops[..|ops| - 1], i);
    }
  }

  /** The transaction law: rolling back any prefix of any list of steps, repeated keys included,
      leaves the starting table without the keys of that prefix, so it restores the starting
      table exactly when none of those keys was there before. */
  lemma RollbackRestoresExactlyAbsentKeys(t: Table, ops: seq<Op>, k: nat)
    requires AllUndoable(ops) && k <= |ops|
    ensures var undone := UndoAll(Apply(t, ops[..k]), ops[..k]);
            undone == t - Keys(ops[..k]) && (undone == t <==> t.Keys !! Keys(ops[..k]))
  {
    AppliedIsCovered(t, ops[..k]);
    UndoRemovesTheKeys(Apply(t, ops[..k]), ops[..k]);
    assert (t - Keys(ops[..k])).Keys == t.Keys - Keys(ops[..k]);
  }

  // ----- Setup -----

  datatype Options = Options(
    interface: string, address: Addr, gateway: Addr, serverIP: Addr, mtu: int, dns: seq<Addr>, blockIPv6: bool)

  /** A default route as listed by `ip route show default`. */
  datatype Default = Default(gateway: Option<Addr>, dev: string)

  predicate Usable(d: Default, exclude: string) { d.dev != exclude && d.dev != "" && d.gateway.Some? }

  /** The first usable default route (client_linux.go:104-108). */
  function FirstUsable(routes: seq<Default>, exclude: string): Option<Default> {
    if routes == [] then None
    else if Usable(routes[0], exclude) then Some(routes[0])
    else FirstUsable(routes[1..], exclude)
  }

  predicate Fit(d: Default, exclude: string) { d.dev != exclude && d.dev != "" && d.gateway.Some? }

  /** The k-th listed route is the first one on another device that names a gateway. */
  ghost predicate IsFirst(routes: seq<Default>, exclude: string, k: nat) {
    k < |routes| && Fit(routes[k], exclude) && forall j :: 0 <= j < k ==> !Fit(routes[j], exclude)
  }

  lemma {:induction false} FirstUsableIsFirst(routes: seq<Default>, exclude: string) returns (k: nat)
    ensures match FirstUsable(routes, exclude)
            case Some(r) => IsFirst(routes, exclude, k) && r == routes[k]
            case None => forall j :: 0 <= j < |routes| ==> !Fit(routes[j], exclude)
  {
    k := 0;
    if routes != [] && !Fit(routes[0], exclude) {
      var m := FirstUsableIsFirst(routes[1..], exclude);
      k := m + 1;
      assert forall j :: 0 < j < |routes| ==> routes[j] == routes[1..][j - 1];
    }
  }

  method DefaultRoute(routes: seq<Default>, exclude: string) returns (r: Option<Default>)
    ensures r == FirstUsable(routes, exclude)
    ensures match r
            case Some(d) => exists k: nat :: IsFirst(routes, exclude, k) && d == routes[k]
            case None => forall j :: 0 <= j < |routes| ==> !Fit(routes[j], exclude)
  {
    for i := 0 to |routes|
      invariant forall j :: 0 <= j < i ==> !Usable(routes[j], exclude)
      invariant FirstUsable(routes, exclude) == FirstUsable(routes[i..], exclude)
    {
      if Usable(routes[i], exclude) {
        assert IsFirst(routes, exclude, i);
        return Some(routes[i]);
      }
    }
    r := None;
  }

  const LOWER_HALF := Prefix(0, 1)
  const UPPER_HALF := Prefix(0x8000_0000, 1)

  function HostRoute(a: Addr): Key { Route4(Prefix(a, 32)) }

  function AddressStep(o: Options): Op { Op(Address(o.address, o.interface), Entry(None, o.interface), None) }

  function ServerStep(o: Options, orig: Default): Op { Op(HostRoute(o.serverIP), Entry(orig.gateway, orig.dev), orig.gateway) }

  function GatewayStep(o: Options): Op { Op(HostRoute(o.gateway), Entry(None, o.interface), None) }

  function HalfStep(o: Options, half: Prefix): Op {
    Op(Route4(half), Entry(Some(o.gateway), o.interface), Some(o.gateway))
  }

  function BlockStep(o: Options, upper: bool): Op { Op(Route6(upper), Entry(None, o.interface), None) }

  /** The table commands of a setup, in order. */
  function Steps(o: Options, orig: Default): seq<Op> {
    [AddressStep(o), ServerStep(o, orig), GatewayStep(o), HalfStep(o, LOWER_HALF), HalfStep(o, UPPER_HALF)]
    + (if o.blockIPv6 then [BlockStep(o, false), BlockStep(o, true)] else [])
  }

  datatype Resolver = Unset | Servers(servers: seq<Addr>) | Captured(servers: seq<Addr>)

  datatype Undo = UndoRoute(op: Op) | RevertResolver

  /** The table commands in an undo log. */
  function RouteOps(log: seq<Undo>): seq<Op> {
    if |log| == 0 then []
    else
      var rest := RouteOps(log[..|log| - 1]);
      match log[|log| - 1]
      case UndoRoute(op) => rest + [op]
      case RevertResolver => rest
  }

  class Network {
    var table: Table
    var link: Option<int>       // the MTU of the interface once it is up
    var resolver: Resolver
    var outcomes: seq<bool>     // whether each further command succeeds
    ghost var failures: nat     // how many commands failed

    constructor (table: Table, outcomes: seq<bool>)
      ensures this.table == table && link == None && resolver == Unset && this.outcomes == outcomes && failures == 0
    {
      this.table, link, resolver, this.outcomes, failures := table, None, Unset, outcomes, 0;
    }

    /** Whether the next command succeeds; any sequence of outcomes is possible. */
    method Outcome() returns (ok: bool)
      modifies this`outcomes, this`failures
      ensures ok <==> old(outcomes) == [] || old(outcomes)[0]
      ensures failures == old(failures) + (if ok then 0 else 1)
    {
      ok := outcomes == [] || outcomes[0];
      failures := failures + (if ok then 0 else 1);
      outcomes := if outcomes == [] then [] else outcomes[1..];
    }

    /** A command either takes effect or leaves the table alone. */
    method Replace(op: Op, log: seq<Undo>) returns (ok: bool, longer: seq<Undo>)
      modifies this`table, this`outcomes, this`failures
      ensures ok <==> failures == old(failures)
      ensures !ok ==> failures > old(failures)
      ensures ok ==> table == Replaced(old(table), op) && longer == log + [UndoRoute(op)]
      ensures !ok ==> table == old(table) && longer == log
    {
      ok := Outcome();
      longer := log;
      if ok {
        table := Replaced(table, op);
        longer := log + [UndoRoute(op)];
      }
    }

    /** Walks the undo log backwards. */
    method Rollback(log: seq<Undo>)
      modifies this`table, this`resolver
      ensures table == UndoAll(old(table), RouteOps(log))
      ensures resolver == if RevertResolver in log then Unset else old(resolver)
    {
      var i := |log|;
      assert log[..i] == log;
      while i > 0
        invariant 0 <= i <= |log|
        invariant UndoAll(old(table), RouteOps(log)) == UndoAll(table, RouteOps(log[..i]))
        invariant resolver == if RevertResolver in log[i..] then Unset else old(resolver)
      {
        i := i - 1;
        RouteOpsShrink(table, log, i);
        match log[i]
        case UndoRoute(op) => table := Deleted(table, op);
        case RevertResolver => resolver := Unset;
      }
      assert log[0..] == log;
    }

    /** The two half routes (client_linux.go:56-64). */
    method CaptureAll(o: Options, log: seq<Undo>) returns (ok: bool, longer: seq<Undo>)
      modifies this`table, this`outcomes, this`failures
      ensures ok <==> failures == old(failures)
      ensures !ok ==> failures > old(failures)
      ensures var ops := [HalfStep(o, LOWER_HALF), HalfStep(o, UPPER_HALF)];
              Progress(old(table), table, log, longer, ops, ok)
    {
      ok, longer := true, log;
      var halves := [LOWER_HALF, UPPER_HALF];
      ghost var ops := [HalfStep(o, LOWER_HALF), HalfStep(o, UPPER_HALF)];
      for i := 0 to |halves|
        invariant Performed(old(table), table, log, longer, ops[..i]) && ok && failures == old(failures)
      {
        PerformedGrows(old(table), table, log, longer, ops[..i], HalfStep(o, halves[i]));
        assert ops[..i + 1] == ops[..i] + [HalfStep(o, halves[i])];
        ok, longer := Replace(HalfStep(o, halves[i]), longer);
        if !ok {
          return;
        }
      }
      assert ops[..2] == ops;
    }

    /** The IPv6 block (client_linux.go:65-75). */
    method BlockIPv6(o: Options, log: seq<Undo>) returns (ok: bool, longer: seq<Undo>)
      modifies this`table, this`outcomes, this`failures
      ensures ok <==> failures == old(failures)
      ensures !ok ==> failures > old(failures)
      ensures Progress(old(table), table, log, longer, [BlockStep(o, false), BlockStep(o, true)], ok)
    {
      ok, longer := true, log;
      var halves := [false, true];
      ghost var ops := [BlockStep(o, false), BlockStep(o, true)];
      for i := 0 to |halves|
        invariant Performed(old(table), table, log, longer, ops[..i]) && ok && failures == old(failures)
      {
        PerformedGrows(old(table), table, log, longer, ops[..i], BlockStep(o, halves[i]));
        assert ops[..i + 1] == ops[..i] + [BlockStep(o, halves[i])];
        ok, longer := Replace(BlockStep(o, halves[i]), longer);
        if !ok {
          return;
        }
      }
      assert ops[..2] == ops;
    }
  
    /** The interface address and the link (client_linux.go:35-43). */
    method BringUp(o: Options) returns (ok: bool, log: seq<Undo>)
      modifies this`table, this`outcomes, this`failures, this`link
      ensures ok <==> failures == old(failures)
      ensures !ok ==> failures > old(failures)
      ensures Progress(old(table), table, [], log, [AddressStep(o)], ok)
      ensures link == old(link) || link == Some(o.mtu)
      ensures ok ==> link == Some(o.mtu)
      ensures RouteOps(log) == [] ==> link == old(link)
    {
      ghost var ops := [AddressStep(o)];
      assert ops[..0] == [] && ops[..1] == ops;
      PerformedGrows(old(table), old(table), [], [], [], AddressStep(o));
      ok, log := Replace(AddressStep(o), []);
      if ok {
        assert Performed(old(table), table, [], log, ops[..1]);
        ok := Outcome();
        if ok {
          link := Some(o.mtu);
        }
      } else {
        assert Performed(old(table), table, [], log, ops[..0]);
      }
    }

    /** The routes to the server and to the gateway (client_linux.go:44-55). */
    method HostRoutes(o: Options, orig: Default, log: seq<Undo>) returns (ok: bool, longer: seq<Undo>)
      modifies this`table, this`outcomes, this`failures
      ensures ok <==> failures == old(failures)
      ensures !ok ==> failures > old(failures)
      ensures Progress(old(table), table, log, longer, [ServerStep(o, orig), GatewayStep(o)], ok)
    {
      ghost var ops := [ServerStep(o, orig), GatewayStep(o)];
      assert ops[..0] == [] && ops[..1] == [ServerStep(o, orig)] && ops[..2] == ops;
      PerformedGrows(old(table), old(table), log, log, [], ServerStep(o, orig));
      ok, longer := Replace(ServerStep(o, orig), log);
      if !ok {
        assert Performed(old(table), table, log, longer, ops[..0]);
        return;
      }
      assert Performed(old(table), table, log, longer, ops[..1]);
      PerformedGrows(old(table), table, log, longer, ops[..1], GatewayStep(o));
      ok, longer := Replace(GatewayStep(o), longer);
      assert ops == ops[..1] + [GatewayStep(o)];
    }

    /** Every table command of a setup. */
    method InstallAll(o: Options, orig: Default) returns (ok: bool, log: seq<Undo>)
      modifies this`table, this`outcomes, this`failures, this`link
      ensures ok <==> failures == old(failures)
      ensures !ok ==> failures > old(failures)
      ensures Progress(old(table), table, [], log, Steps(o, orig), ok)
      ensures link == old(link) || link == Some(o.mtu)
      ensures ok ==> link == Some(o.mtu)
      ensures RouteOps(log) == [] ==> link == old(link)
    {
      ghost var address, hosts := [AddressStep(o)], [ServerStep(o, orig), GatewayStep(o)];
      ghost var halves := [HalfStep(o, LOWER_HALF), HalfStep(o, UPPER_HALF)];
      ghost var blocks := if o.blockIPv6 then [BlockStep(o, false), BlockStep(o, true)] else [];
      assert Steps(o, orig) == address + hosts + halves + blocks;
      ghost var start := table;
      ok, log := BringUp(o);
      if !ok {
        ProgressStops(start, table, [], log, address, hosts + halves + blocks);
        assert address + (hosts + halves + blocks) == Steps(o, orig);
        return;
      }
      ghost var middle, before := table, log;
      ok, log := HostRoutes(o, orig, log);
      ProgressChains(start, middle, table, [], before, log, address, hosts, ok);
      hosts := address + hosts;
      if !ok {
        ProgressStops(start, table, [], log, hosts, halves + blocks);
        assert hosts + (halves + blocks) == Steps(o, orig);
        return;
      }
      middle, before := table, log;
      ok, log := CaptureAll(o, log);
      ProgressChains(start, middle, table, [], before, log, hosts, halves, ok);
      if !ok {
        ProgressStops(start, table, [], log, hosts + halves, blocks);
        return;
      }
      if o.blockIPv6 {
        middle, before := table, log;
        ok, log := BlockIPv6(o, log);
        ProgressChains(start, middle, table, [], before, log, hosts + halves, blocks, ok);
      } else {
        assert Steps(o, orig) == hosts + halves;
      }
    }

    /** The resolver commands (client_linux.go:76-91); true if both succeeded. */
    method CaptureResolver(o: Options, hasResolvectl: bool) returns (ok: bool)
      modifies this`resolver, this`outcomes, this`failures
      ensures ok <==> hasResolvectl && failures == old(failures)
      ensures failures >= old(failures)
      ensures ok ==> resolver == Captured(o.dns)
      ensures !ok ==> resolver == old(resolver) || resolver == Servers(o.dns)
    {
      if !hasResolvectl {
        return false;
      }
      ok := Outcome();
      if ok {
        resolver := Servers(o.dns);
        ok := Outcome();
        if ok {
          resolver := Captured(o.dns);
        }
      }
    }

    /** The commands of a setup behind the default route: on success every command took effect and
        the returned log undoes them; on any failure the table commands performed, the first `done`
        of them, have been rolled back. The two steps without an undo entry can remain: the link,
        once the address is set, and the name servers, when the `domain` command after them
        failed. */
    method Perform(o: Options, orig: Default, hasResolvectl: bool)
      returns (cleanup: Option<seq<Undo>>, ghost done: nat)
      modifies this
      ensures cleanup.Some? <==> failures == old(failures) && (o.dns == [] || hasResolvectl)
      ensures cleanup.Some? ==>
                var ops := Steps(o, orig);
                && table == Apply(old(table), ops) && RouteOps(cleanup.value) == ops && link == Some(o.mtu)
                && resolver == (if o.dns == [] then old(resolver) else Captured(o.dns))
                && (RevertResolver in cleanup.value <==> o.dns != [])
      ensures cleanup.None? ==>
                var ops := Steps(o, orig);
                && done <= |ops| && table == UndoAll(Apply(old(table), ops[..done]), ops[..done])
                && (link == old(link) || (done > 0 && link == Some(o.mtu)))
                && (resolver == old(resolver) || (o.dns != [] && done == |ops| && resolver == Servers(o.dns)))
    {
      ghost var ops := Steps(o, orig);
      var ok, log := InstallAll(o, orig);
      if !ok {
        done :| 0 <= done <= |ops| && Performed(old(table), table, [], log, ops[..done]);
        assert RouteOps(log) == ops[..done];
        Rollback(log);
        return None, done;
      }
      assert ops[..|ops|] == ops == RouteOps(log);
      done := |ops|;
      cleanup := ServeNames(o, hasResolvectl, log);
    }

    /** The name servers, if any are asked for (client_linux.go:76-92): the finished undo log, or a
        rollback. */
    method ServeNames(o: Options, hasResolvectl: bool, log: seq<Undo>) returns (cleanup: Option<seq<Undo>>)
      requires RevertResolver !in log
      modifies this`table, this`resolver, this`outcomes, this`failures
      ensures failures >= old(failures)
      ensures cleanup.Some? <==> failures == old(failures) && (o.dns == [] || hasResolvectl)
      ensures cleanup.Some? ==>
                && table == old(table) && RouteOps(cleanup.value) == RouteOps(log)
                && resolver == (if o.dns == [] then old(resolver) else Captured(o.dns))
                && (RevertResolver in cleanup.value <==> o.dns != [])
      ensures cleanup.None? ==>
                && table == UndoAll(old(table), RouteOps(log))
                && (resolver == old(resolver) || (o.dns != [] && resolver == Servers(o.dns)))
    {
      if o.dns == [] {
        return Some(log);
      }
      var ok := CaptureResolver(o, hasResolvectl);
      if !ok {
        Rollback(log);
        return None;
      }
      assert (log + [RevertResolver])[..|log|] == log;
      cleanup := Some(log + [RevertResolver]);
    }

    /** SetupClient: with a usable default route either everything is installed and the returned
        cleanup undoes it, or nothing is and the table is rolled back; the link and the name
        servers, which have no undo entry, can remain. */
    method SetupClient(o: Options, routes: seq<Default>, hasResolvectl: bool)
      returns (cleanup: Option<seq<Undo>>, ghost done: nat)
      modifies this
      ensures cleanup.Some? <==>
                && (exists k: nat :: IsFirst(routes, o.interface, k)) && failures == old(failures)
                && (o.dns == [] || hasResolvectl)
      ensures cleanup.Some? ==> Undone(old(table), UndoAll(table, RouteOps(cleanup.value)), o)
      ensures cleanup.Some? ==>
                exists k: nat :: IsFirst(routes, o.interface, k) && Installed(old(table), table, o, routes[k])
      ensures cleanup.None? ==> Undone(old(table), table, o)
      ensures cleanup.Some? <==>
                FirstUsable(routes, o.interface).Some? && failures == old(failures) && (o.dns == [] || hasResolvectl)
      ensures FirstUsable(routes, o.interface).None? ==>
                cleanup.None? && table == old(table) && link == old(link) && resolver == old(resolver)
      ensures FirstUsable(routes, o.interface).Some? ==>
                var ops := Steps(o, FirstUsable(routes, o.interface).value);
                && (cleanup.Some? ==>
                      && table == Apply(old(table), ops) && RouteOps(cleanup.value) == ops && link == Some(o.mtu)
                      && resolver == (if o.dns == [] then old(resolver) else Captured(o.dns))
                      && (RevertResolver in cleanup.value <==> o.dns != []))
                && (cleanup.None? ==>
                      && done <= |ops| && table == UndoAll(Apply(old(table), ops[..done]), ops[..done])
                      && (link == old(link) || (done > 0 && link == Some(o.mtu)))
                      && (resolver == old(resolver) || (o.dns != [] && done == |ops| && resolver == Servers(o.dns))))
    {
      ghost var k := FirstUsableIsFirst(routes, o.interface);
      var orig := DefaultRoute(routes, o.interface);
      if orig.None? {
        return None, 0;
      }
      cleanup, done := Perform(o, orig.value, hasResolvectl);
      StepsInstall(old(table), o, orig.value);
      ghost var ops := Steps(o, orig.value);
      assert ops[..|ops|] == ops;
      RollbackUndoes(old(table), o, orig.value, if cleanup.Some? then |ops| else done);
    }
  }

  lemma {:induction false} ApplyConcat(t: Table, a: seq<Op>, b: seq<Op>)
    ensures Apply(t, a + b) == Apply(Apply(t, a), b)
  {
    if |b| == 0 {
      assert a + b == a;
    } else {
      ApplyConcat(t, a, b[..|b| - 1]);
      assert (a + b)[..|a + b| - 1] == a + b[..|b| - 1];
    }
  }

  lemma ApplyOne(t: Table, op: Op)
    ensures Apply(t, [op]) == Replaced(t, op)
  {
    assert [op][..0] == [];
  }

  lemma ApplyTwo(t: Table, a: Op, b: Op)
    ensures Apply(t, [a, b]) == Replaced(Replaced(t, a), b)
  {
    assert [a, b][..1] == [a];
    ApplyOne(t, a);
  }

  /** A setup's commands one after the other. */
  lemma StepsExpanded(t: Table, o: Options, orig: Default)
    ensures var t3 := Replaced(Replaced(Replaced(t, AddressStep(o)), ServerStep(o, orig)), GatewayStep(o));
            var t5 := Replaced(Replaced(t3, HalfStep(o, LOWER_HALF)), HalfStep(o, UPPER_HALF));
            Apply(t, Steps(o, orig)) ==
            if o.blockIPv6 then Replaced(Replaced(t5, BlockStep(o, false)), BlockStep(o, true)) else t5
  {
    var hosts := [ServerStep(o, orig), GatewayStep(o)];
    var halves := [HalfStep(o, LOWER_HALF), HalfStep(o, UPPER_HALF)];
    var blocks := if o.blockIPv6 then [BlockStep(o, false), BlockStep(o, true)] else [];
    assert Steps(o, orig) == [AddressStep(o)] + hosts + halves + blocks;
    ApplyConcat(t, [AddressStep(o)] + hosts + halves, blocks);
    ApplyConcat(t, [AddressStep(o)] + hosts, halves);
    ApplyConcat(t, [AddressStep(o)], hosts);
    ApplyOne(t, AddressStep(o));
    var t1 := Replaced(t, AddressStep(o));
    ApplyTwo(t1, ServerStep(o, orig), GatewayStep(o));
    var t2 := Apply(t1, hosts);
    ApplyTwo(t2, HalfStep(o, LOWER_HALF), HalfStep(o, UPPER_HALF));
    ApplyTwo(Apply(t2, halves), BlockStep(o, false), BlockStep(o, true));
  }

  // ----- A setup by its effect -----

  predicate Holds(t: Table, k: Key, e: Entry) { k in t && t[k] == e }

  predicate SameAt(t: Table, u: Table, k: Key) { (k in t <==> k in u) && (k in t ==> t[k] == u[k]) }

  /** The keys a setup may write. */
  predicate SetupKey(o: Options, k: Key) {
    || k == Address(o.address, o.interface)
    || k == Route4(Prefix(o.serverIP, 32)) || k == Route4(Prefix(o.gateway, 32))
    || k == Route4(Prefix(0, 1)) || k == Route4(Prefix(0x8000_0000, 1))
    || (k.Route6? && o.blockIPv6)
  }

  /** The assigned address is on the interface; the server keeps the original route, the gateway
      and both halves of the IPv4 addresses go to the interface, and so do both halves of the IPv6
      addresses when they are to be blocked; all else is as before. */
  ghost predicate Installed(t: Table, u: Table, o: Options, orig: Default) {
    && Holds(u, Address(o.address, o.interface), Entry(None, o.interface))
    && (o.serverIP != o.gateway ==> Holds(u, Route4(Prefix(o.serverIP, 32)), Entry(orig.gateway, orig.dev)))
    && Holds(u, Route4(Prefix(o.gateway, 32)), Entry(None, o.interface))
    && Holds(u, Route4(Prefix(0, 1)), Entry(Some(o.gateway), o.interface))
    && Holds(u, Route4(Prefix(0x8000_0000, 1)), Entry(Some(o.gateway), o.interface))
    && (o.blockIPv6 ==>
          Holds(u, Route6(false), Entry(None, o.interface)) && Holds(u, Route6(true), Entry(None, o.interface)))
    && forall k :: !SetupKey(o, k) ==> SameAt(t, u, k)
  }

  /** All else is as before, nothing is new, and nothing at all changed if none of the keys of a
      setup was there before. */
  ghost predicate Undone(t: Table, u: Table, o: Options) {
    && (forall k :: !SetupKey(o, k) ==> SameAt(t, u, k))
    && (forall k :: k in u ==> k in t && t[k] == u[k])
    && ((forall k :: k in t ==> !SetupKey(o, k)) ==> u == t)
  }

  lemma StepsInstall(t: Table, o: Options, orig: Default)
    ensures Installed(t, Apply(t, Steps(o, orig)), o, orig)
  {
    StepsExpanded(t, o, orig);
  }

  lemma {:induction false} StepKeysAreSetupKeys(o: Options, orig: Default, n: nat)
    requires n <= |Steps(o, orig)|
    ensures forall k :: k in Keys(Steps(o, orig)[..n]) ==> SetupKey(o, k)
  {
    if n > 0 {
      StepKeysAreSetupKeys(o, orig, n - 1);
      assert Steps(o, orig)[..n][..n - 1] == Steps(o, orig)[..n - 1];
      assert SetupKey(o, Steps(o, orig)[n - 1].key);
    }
  }

  lemma RollbackUndoes(t: Table, o: Options, orig: Default, n: nat)
    requires n <= |Steps(o, orig)|
    ensures var ops := Steps(o, orig)[..n]; Undone(t, UndoAll(Apply(t, ops), ops), o)
  {
    StepKeysAreSetupKeys(o, orig, n);
    RollbackRestoresExactlyAbsentKeys(t, Steps(o, orig), n);
    if forall k :: k in t ==> !SetupKey(o, k) {
      assert t.Keys !! Keys(Steps(o, orig)[..n]);
    }
  }

  /** A list that stopped early is an early stop of any longer list. */
  lemma ProgressStops(start: Table, now: Table, log: seq<Undo>, longer: seq<Undo>, ops: seq<Op>, more: seq<Op>)
    requires Progress(start, now, log, longer, ops, false)
    ensures Progress(start, now, log, longer, ops + more, false)
  {
    var k :| 0 <= k <= |ops| && Performed(start, now, log, longer, ops[..k]);
    assert (ops + more)[..k] == ops[..k];
  }

  lemma ProgressChains(start: Table, middle: Table, now: Table, log: seq<Undo>, longer: seq<Undo>, longest: seq<Undo>,
                       ops: seq<Op>, more: seq<Op>, ok: bool)
    requires Performed(start, middle, log, longer, ops) && Progress(middle, now, longer, longest, more, ok)
    ensures Progress(start, now, log, longest, ops + more, ok)
  {
    if ok {
      PerformedChains(start, middle, now, log, longer, longest, ops, more);
    } else {
      var k :| 0 <= k <= |more| && Performed(middle, now, longer, longest, more[..k]);
      PerformedChains(start, middle, now, log, longer, longest, ops, more[..k]);
      assert (ops + more)[..|ops| + k] == ops + more[..k];
    }
  }

  lemma PerformedChains(start: Table, middle: Table, now: Table, log: seq<Undo>, longer: seq<Undo>, longest: seq<Undo>,
                        ops: seq<Op>, more: seq<Op>)
    requires Performed(start, middle, log, longer, ops) && Performed(middle, now, longer, longest, more)
    ensures Performed(start, now, log, longest, ops + more)
  {
    ApplyConcat(start, ops, more);
  }

  /** These commands took effect since start, and the log gained exactly their undo entries. */
  ghost predicate Performed(start: Table, now: Table, log: seq<Undo>, longer: seq<Undo>, ops: seq<Op>) {
    && now == Apply(start, ops)
    && RouteOps(longer) == RouteOps(log) + ops
    && (RevertResolver in longer <==> RevertResolver in log)
  }

  /** All of the commands took effect, or something failed and only some first ones did. */
  ghost predicate Progress(start: Table, now: Table, log: seq<Undo>, longer: seq<Undo>, ops: seq<Op>, ok: bool) {
    if ok then Performed(start, now, log, longer, ops)
    else exists k :: 0 <= k <= |ops| && Performed(start, now, log, longer, ops[..k])
  }

  lemma PerformedGrows(start: Table, now: Table, log: seq<Undo>, longer: seq<Undo>, ops: seq<Op>, op: Op)
    requires Performed(start, now, log, longer, ops)
    ensures Performed(start, Replaced(now, op), log, longer + [UndoRoute(op)], ops + [op])
  {
    assert (ops + [op])[..|ops|] == ops;
    assert (longer + [UndoRoute(op)])[..|longer|] == longer;
  }

  lemma RouteOpsShrink(t: Table, log: seq<Undo>, i: nat)
    requires i < |log|
    ensures match log[i]
            case UndoRoute(op) => UndoAll(t, RouteOps(log[..i + 1])) == UndoAll(Deleted(t, op), RouteOps(log[..i]))
            case RevertResolver => RouteOps(log[..i + 1]) == RouteOps(log[..i])
    ensures log[i..] == [log[i]] + log[i + 1..]
  {
    assert log[..i + 1][..i] == log[..i];
    if log[i].UndoRoute? {
      assert (RouteOps(log[..i]) + [log[i].op])[..|RouteOps(log[..i])|] == RouteOps(log[..i]);
    }
  }
}
