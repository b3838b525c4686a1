/** The initial sync as the two programs carry it out, step by step on their engines. */
module InitialSync {
  import opened Paths
  import opened Wrappers
  import opened Ledgers
  import opened LedgerExchange
  import opened Engine
  import opened EngineStore
  import opened Reconcile
  import opened Convergence
  import opened Completion

  /** The ledger exchange that opens a session: the server speaks first, the client replies with the merged ledger. */
  method ExchangeLedgers(client: SyncEngine, server: SyncEngine)
    requires client != server && client.ledger.Valid() && server.ledger.Valid()
    modifies client`ledger, server`ledger
    ensures client.ledger.Valid() && server.ledger.Valid() && SameStamps(client.ledger, server.ledger)
    ensures forall p :: client.ledger.AliveSince(p) == Max(old(client.ledger).AliveSince(p), old(server.ledger).AliveSince(p))
    ensures forall p :: client.ledger.TombAt(p) ==
                        Unlifted(MaxTomb(old(client.ledger).TombAt(p), old(server.ledger).TombAt(p)), client.ledger.AliveSince(p))
    ensures FromEither(client.ledger, old(client.ledger), old(server.ledger))
    ensures FromEither(server.ledger, old(client.ledger), old(server.ledger))
  {
    ghost var c, s := client.ledger, server.ledger;
    var fromServer := LedgerEntries(server.ledger);
    MergeIsJoin(client.ledger, server.ledger, fromServer);
    client.ledger := Merged(client.ledger, fromServer);
    var fromClient := LedgerEntries(client.ledger);
    ExchangeAgrees(c, s, fromServer, fromClient);
    server.ledger := Merged(server.ledger, fromClient);
    ExchangeInvents(c, s, fromServer, fromClient);
  }

  /** Every tombstone of `l` is one that `a` or `b` held. */
  ghost predicate FromEither(l: Ledger, a: Ledger, b: Ledger) {
    forall p :: p in l.tombs ==> Holds(a, p, l.tombs[p]) || Holds(b, p, l.tombs[p])
  }

  lemma ExchangeInvents(client: Ledger, server: Ledger, fromServer: seq<TombstoneDto>, fromClient: seq<TombstoneDto>)
    requires client.Valid() && server.Valid() && Merged(client, fromServer).Valid()
    requires Lists(fromServer, server) && Lists(fromClient, Merged(client, fromServer))
    ensures FromEither(Merged(client, fromServer), client, server)
    ensures FromEither(Merged(server, fromClient), client, server)
  {
    forall p | p in Merged(client, fromServer).tombs
      ensures Holds(client, p, Merged(client, fromServer).tombs[p]) || Holds(server, p, Merged(client, fromServer).tombs[p])
    {
      MergedFrom(client, server, fromServer, p);
    }
    forall p | p in Merged(server, fromClient).tombs
      ensures Holds(client, p, Merged(server, fromClient).tombs[p]) || Holds(server, p, Merged(server, fromClient).tombs[p])
    {
      MergedFrom(server, Merged(client, fromServer), fromClient, p);
    }
  }

  /** Decide, delete the stale copies a tombstone beats, and work out which deletes the peer missed. */
  method PlanHalf(engine: SyncEngine, judged: Manifest, remote: Manifest, isServer: bool) returns (plan: Plan)
    modifies engine
    ensures PlanOf(plan, old(engine.State()), judged, remote, isServer)
    ensures engine.State() == DeleteEach(old(engine.State()), plan.vetoes)
  {
    var raw := ComputeSendList(judged, remote, isServer);
    var snap := engine.ledger;
    var send, recreated := FilterResurrected(raw, judged, Some(snap));
    var vetoes := DropStale(engine, raw, send, snap);
    var pushes := ComputeDeletesToPush(engine.manifest, remote, snap);
    plan := Plan(vetoes, pushes, send, recreated);
    VetoesOf(snap, judged, remote, isServer, raw, send, vetoes);
  }

  /** What was raised but not sent is what lost to a tombstone. */
  lemma VetoesOf(snap: Ledger, judged: Manifest, remote: Manifest, isServer: bool, raw: seq<Path>, send: seq<Path>, vetoes: seq<Deletion>)
    requires forall p :: p in raw <==> ShouldSend(judged, remote, isServer, p)
    requires forall p :: p in send <==> p in raw && (p in judged ==> !Judge(snap, judged[p], p).Vetoed?)
    requires Enumerates(vetoes, (d: Deletion) =>
               d.path in raw && d.path !in send && d.path in snap.tombs && d == DeletionOf(snap, d.path))
    ensures Enumerates(vetoes, (d: Deletion) =>
              ShouldSend(judged, remote, isServer, d.path) && Judge(snap, judged[d.path], d.path).Vetoed?
              && d.path in snap.tombs && d == DeletionOf(snap, d.path))
  {
  }

  method DropStale(engine: SyncEngine, raw: seq<Path>, send: seq<Path>, snap: Ledger) returns (vetoes: seq<Deletion>)
    requires forall i, j :: 0 <= i < j < |raw| ==> raw[i] != raw[j]
    modifies engine
    ensures Enumerates(vetoes, (d: Deletion) =>
              d.path in raw && d.path !in send && d.path in snap.tombs && d == DeletionOf(snap, d.path))
    ensures engine.State() == DeleteEach(old(engine.State()), vetoes)
  {
    vetoes := [];
    for i := 0 to |raw|
      invariant forall a, b :: 0 <= a < b < |vetoes| ==> vetoes[a] != vetoes[b]
      invariant forall d :: d in vetoes <==>
                  d.path in raw[..i] && d.path !in send && d.path in snap.tombs && d == DeletionOf(snap, d.path)
      invariant engine.State() == DeleteEach(old(engine.State()), vetoes)
    {
      var p := raw[i];
      assert raw[..i + 1] == raw[..i] + [p];
      if p !in send && p in snap.tombs {
        var d := DeletionOf(snap, p);
        assert forall a :: 0 <= a < |vetoes| ==> vetoes[a] in vetoes && vetoes[a] != d;
        engine.ApplyDelete(d.path, d.at, d.deleter);
        assert (vetoes + [d])[..|vetoes|] == vetoes;
        vetoes := vetoes + [d];
      }
    }
    assert raw[..|raw|] == raw;
  }

  /** Read the files of a send list; paths no longer on disk are skipped. */
  method Stream(engine: SyncEngine, send: seq<Path>) returns (files: seq<FileData>)
    requires forall i, j :: 0 <= i < j < |send| ==> send[i] != send[j]
    ensures PayloadOf(engine.State(), send, files)
  {
    files := [];
    for i := 0 to |send|
      invariant forall a, b :: 0 <= a < b < |files| ==> files[a] != files[b]
      invariant forall fd :: fd in files <==>
                  fd.path in send[..i] && fd.path in engine.disk && fd == DataOf(engine.State(), fd.path)
    {
      var p := send[i];
      assert send[..i + 1] == send[..i] + [p];
      if p in engine.disk {
        var fd := DataOf(engine.State(), p);
        assert forall a :: 0 <= a < |files| ==> files[a] in files && files[a] != fd;
        files := files + [fd];
      }
    }
    assert send[..|send|] == send;
  }

  /** The receive loop: each pushed delete with its clamped stamp, then the bundles, up to the first failed write. */
  method Receive(engine: SyncEngine, pushes: seq<Deletion>, files: seq<FileData>, now: nat) returns (ok: bool)
    modifies engine
    ensures ok <==> Unobstructed(DeleteEach(old(engine.State()), Clamped(pushes, now)), files)
    ensures ok ==> engine.State() == Received(old(engine.State()), pushes, files, now)
    ensures !ok ==> exists i :: 0 <= i < |files|
                      && StoppedAt(DeleteEach(old(engine.State()), Clamped(pushes, now)), files, i, engine.State())
  {
    for i := 0 to |pushes|
      invariant engine.State() == DeleteEach(old(engine.State()), Clamped(pushes[..i], now))
    {
      var d := pushes[i];
      assert pushes[..i + 1][..i] == pushes[..i];
      var clamped := d.(at := ClampFutureStamp(d.at, now));
      assert Clamped(pushes[..i + 1], now)[..i] == Clamped(pushes[..i], now);
      engine.ApplyDelete(clamped.path, clamped.at, clamped.deleter);
    }
    assert pushes[..|pushes|] == pushes;
    var written;
    written, ok := engine.ApplyBundle(files);
  }

  /** How far a session got: to its end, or to a write that failed on the client or on the server. */
  datatype Ending = Completed | ClientFailed | ServerFailed

  /**
   One initial sync. It completes exactly when no admitted file meets a directory or the other way
   round; then, at every path that is ready, both sides hold the same content exactly when it was not stuck.
   */
  method RunSession(client: SyncEngine, server: SyncEngine, clientNow: nat, serverNow: nat) returns (run: Session, ending: Ending)
    requires client != server
    modifies client, server
    ensures run.FollowsFirst() && run.client == old(client.State()) && run.server == old(server.State())
    ensures run.clientNow == clientNow && run.serverNow == serverNow
    ensures ending.ClientFailed? <==> !run.FirstCompletes()
    ensures !ending.ClientFailed? ==> run.Follows()
    ensures ending.Completed? <==> run.Completes()
    ensures ending.Completed? ==> client.State() == run.ClientAfter() && server.State() == run.ServerAfter()
    ensures ending.Completed? ==>
              forall p :: run.Ready(p) ==> (HashAt(client.State(), p) == HashAt(server.State(), p) <==> !Stuck(run, p))
    ensures ending.ClientFailed? ==>
              && server.State() == Settled(run.ServerVetoed(), run.serverPlan.recreated)
              && exists i :: 0 <= i < |run.toClient| && StoppedAt(run.ClientSwept(), run.toClient, i, client.State())
    ensures ending.ServerFailed? ==>
              && client.State() == run.ClientAfter()
              && exists i :: 0 <= i < |run.toServer| && StoppedAt(run.ServerSwept(), run.toServer, i, server.State())
  {
    var local, remote := client.manifest, server.manifest;
    var c, s := client.State(), server.State();
    var nothing := Plan([], [], [], []);
    var serverPlan := PlanHalf(server, remote, local, true);
    var toClient := Stream(server, serverPlan.send);
    server.ClearTombstones(serverPlan.recreated);
    run := Session(c, s, clientNow, serverNow, serverPlan, toClient, nothing, []);
    var ok := Receive(client, serverPlan.pushes, toClient, clientNow);
    if !ok {
      return run, ClientFailed;
    }
    var clientPlan := PlanHalf(client, local, remote, false);
    var toServer := Stream(client, clientPlan.send);
    client.ClearTombstones(clientPlan.recreated);
    run := run.(clientPlan := clientPlan, toServer := toServer);
    ok := Receive(server, clientPlan.pushes, toServer, serverNow);
    if !ok {
      return run, ServerFailed;
    }
    ending := Completed;
    forall p | run.Ready(p)
      ensures HashAt(run.ClientAfter(), p) == HashAt(run.ServerAfter(), p) <==> !Stuck(run, p)
    {
      Converges(run, p);
    }
  }

  // ---- Exchange and session together ----

  /** A tombstone that may take part: plain, within both clocks, and above no file of either side. */
  ghost predicate Harmless(t: Tombstone, p: Path, files: set<Path>, clientNow: nat, serverNow: nat) {
    && Plain(t) && p != [] && (forall f :: f in files && f != p ==> !StartsWith(f, p))
    && t.deletedAt <= clientNow + MAX_FUTURE_SKEW_MS && t.deletedAt <= serverNow + MAX_FUTURE_SKEW_MS
  }

  /** Two scanned trees with valid ledgers and harmless tombstones, before they have spoken to each other. */
  ghost predicate Strangers(c: Node, s: Node, clientNow: nat, serverNow: nat) {
    && Scanned(c) && Scanned(s) && c.ledger.Valid() && s.ledger.Valid()
    && (forall p :: p in c.ledger.tombs ==> Harmless(c.ledger.tombs[p], p, c.manifest.Keys + s.manifest.Keys, clientNow, serverNow))
    && (forall p :: p in s.ledger.tombs ==> Harmless(s.ledger.tombs[p], p, c.manifest.Keys + s.manifest.Keys, clientNow, serverNow))
  }

  /** Every file is ready for the session once the ledgers agree. */
  lemma StrangersReady(run: Session, c: Ledger, s: Ledger)
    requires Strangers(run.client.(ledger := c), run.server.(ledger := s), run.clientNow, run.serverNow)
    requires run.client.ledger.Valid() && run.server.ledger.Valid() && SameStamps(run.client.ledger, run.server.ledger)
    requires FromEither(run.client.ledger, c, s) && FromEither(run.server.ledger, c, s)
    ensures [] !in run.Tombs() && forall p :: p in run.Files() ==> run.Ready(p)
    ensures forall p :: p in run.client.ledger.tombs ==> Plain(run.client.ledger.tombs[p])
    ensures forall p :: p in run.server.ledger.tombs ==> Plain(run.server.ledger.tombs[p])
  {
    var files := run.client.manifest.Keys + run.server.manifest.Keys;
    assert run.Files() == files;
    forall p | p in run.client.ledger.tombs
      ensures Harmless(run.client.ledger.tombs[p], p, files, run.clientNow, run.serverNow)
    {
      assert Holds(c, p, run.client.ledger.tombs[p]) || Holds(s, p, run.client.ledger.tombs[p]);
    }
    forall p | p in run.server.ledger.tombs
      ensures Harmless(run.server.ledger.tombs[p], p, files, run.clientNow, run.serverNow)
    {
      assert Holds(c, p, run.server.ledger.tombs[p]) || Holds(s, p, run.server.ledger.tombs[p]);
    }
    forall p | p in run.Files()
      ensures run.Ready(p)
    {
      FileReady(run, p);
    }
  }

  lemma FileReady(run: Session, p: Path)
    requires p in run.Files() && Scanned(run.client) && Scanned(run.server)
    requires run.client.ledger.Valid() && run.server.ledger.Valid() && SameStamps(run.client.ledger, run.server.ledger)
    requires forall q :: q in run.client.ledger.tombs ==>
               Harmless(run.client.ledger.tombs[q], q, run.Files(), run.clientNow, run.serverNow)
    requires forall q :: q in run.server.ledger.tombs ==>
               Harmless(run.server.ledger.tombs[q], q, run.Files(), run.clientNow, run.serverNow)
    ensures run.Ready(p)
  {
    assert run.client.ledger.TombAt(p) == run.server.ledger.TombAt(p);
    if p in run.Tombs() {
      forall f | f in run.Files()
        ensures !Below(f, p)
      {
        assert p in run.client.ledger.tombs || p in run.server.ledger.tombs;
      }
    }
  }

  /**
   Two sides that met for the first time, whatever their ledgers held: they exchange ledgers and run
   one session. It completes exactly when no file and directory get in each other's way, and then both
   manifests hold the same paths with the same hashes.
   */
  method Meet(client: SyncEngine, server: SyncEngine, clientNow: nat, serverNow: nat) returns (run: Session, ending: Ending)
    requires client != server && Strangers(client.State(), server.State(), clientNow, serverNow)
    modifies client, server
    ensures ending.ClientFailed? <==> !ClearWay(run.ClientSwept(), run.toClient)
    ensures ending.Completed? <==> ClearWay(run.ClientSwept(), run.toClient) && ClearWay(run.ServerSwept(), run.toServer)
    ensures run.client.manifest == old(client.manifest) && run.server.manifest == old(server.manifest)
    ensures ending.Completed? ==> client.manifest.Keys == server.manifest.Keys
    ensures ending.Completed? ==> forall p :: p in client.manifest ==> client.manifest[p].hash == server.manifest[p].hash
  {
    ghost var c, s := client.ledger, server.ledger;
    ExchangeLedgers(client, server);
    run, ending := RunSession(client, server, clientNow, serverNow);
    StrangersReady(run, c, s);
    ClosedIsTree(run.server.disk);
    FirstCompletesExactly(run);
    if !ending.ClientFailed? {
      CompletesExactly(run);
    }
    if ending.Completed? {
      PlainTombstonesConverge(run);
    }
  }
}
