/**
 Push and fetch as interleaved steps of any number of clients and servers. Objects are named by
 their content, so one map says what every ID stands for; every store is a part of it.
 */
module Protocol {
  import opened Objects
  import opened Reachability
  import opened CommitGraph
  import opened Discovery
  import opened Transfer
  import opened Transport

  datatype Repo = Repo(store: Store, refs: Refs)

  /** One push or fetch under way, by how far it has come. */
  datatype Op =
    | PushListed(client: nat, server: nat, update: RefUpdate, haves: seq<Id>)
    | PushPacked(client: nat, server: nat, update: RefUpdate, pack: Store)
    | PushIngested(client: nat, server: nat, update: RefUpdate)
    | PushAccepted(client: nat, update: RefUpdate)
    | FetchListed(client: nat, server: nat, wants: seq<Id>, haves: seq<Id>)
    | FetchPacked(client: nat, wants: seq<Id>, pack: Store)
    | FetchIngested(client: nat, wants: seq<Id>)

  /** One write of a ref; pushed says it came in as an update from outside. */
  datatype Event = Event(repo: nat, name: RefName, prev: Id, next: Id, pushed: bool, force: bool)

  datatype World = World(repos: seq<Repo>, ops: seq<Op>, log: seq<Event>)

  // ----- steps -----

  function Write(r: Repo, name: RefName, id: Id): Repo {
    r.(refs := r.refs[name := id])
  }

  function Record(w: World, k: nat, r: Repo, e: Event): World
    requires k < |w.repos|
  {
    w.(repos := w.repos[k := r], log := w.log + [e])
  }

  /** The branches a repository advertises. */
  ghost predicate Advertised(refs: Refs, ids: seq<Id>) {
    forall id :: id in ids <==> exists b :: Head(b) in refs && refs[Head(b)] == id
  }

  ghost predicate AllRefs(refs: Refs, ids: seq<Id>) {
    forall id :: id in ids <==> exists n :: n in refs && refs[n] == id
  }

  /** Local work: objects are added and a ref is set to a commit that is complete with them. */
  ghost predicate LocalWrite(u: Store, w: World, k: nat, objs: set<Id>, name: RefName, id: Id, w': World) {
    && k < |w.repos| && objs <= u.Keys
    && var r := w.repos[k];
       var store := Ingest(r.store, Pick(u, objs));
       && IsCommit(store, id) && Complete(store, id)
       && w' == Record(w, k, Repo(store, r.refs[name := id]), Event(k, name, Resolve(r.refs, name), id, false, false))
  }

  /** A client reads the server's branches and its own new commit. */
  ghost predicate PushList(w: World, c: nat, s: nat, branch: string, force: bool, haves: seq<Id>, w': World) {
    && c < |w.repos| && s < |w.repos| && Head(branch) in w.repos[c].refs
    && Advertised(w.repos[s].refs, haves)
    && var update := RefUpdate(Head(branch), Resolve(w.repos[s].refs, Head(branch)), w.repos[c].refs[Head(branch)],
        force);
       w' == w.(ops := w.ops + [PushListed(c, s, update, haves)])
  }

  /** It lists the objects the server lacks, in its own store, and packs them. */
  ghost predicate PushPack(w: World, i: nat, ids: set<Id>, known: set<Id>, w': World) {
    && i < |w.ops| && w.ops[i].PushListed? && w.ops[i].client < |w.repos|
    && var op := w.ops[i];
       var store := w.repos[op.client].store;
       && ids <= store.Keys && Covers(store, [op.update.next], op.haves, ids, known)
       && w' == w.(ops := w.ops[i := PushPacked(op.client, op.server, op.update, Pick(store, ids))])
  }

  ghost predicate PushIngest(w: World, i: nat, w': World) {
    && i < |w.ops| && w.ops[i].PushPacked? && w.ops[i].server < |w.repos|
    && var op := w.ops[i];
       var r := w.repos[op.server];
       w' == w.(repos := w.repos[op.server := r.(store := Ingest(r.store, op.pack))],
                ops := w.ops[i := PushIngested(op.client, op.server, op.update)])
  }

  /** The server's answer to the update, under its refs lock. */
  ghost predicate PushUpdate(w: World, i: nat, refs: Refs, ok: bool, w': World) {
    && i < |w.ops| && w.ops[i].PushIngested? && w.ops[i].server < |w.repos|
    && var op := w.ops[i];
       var r := w.repos[op.server];
       && Applied(r.store, r.refs, op.update, refs, ok)
       && w' == if ok
                then Record(w, op.server, Repo(r.store, refs),
                            Event(op.server, op.update.name, op.update.prev, op.update.next, true, op.update.force))
                     .(ops := w.ops[i := PushAccepted(op.client, op.update)])
                else w
  }

  /** The client mirrors what it pushed in a tracking ref. */
  ghost predicate PushTrack(w: World, i: nat, remote: string, w': World) {
    && i < |w.ops| && w.ops[i].PushAccepted? && w.ops[i].client < |w.repos|
    && var op := w.ops[i];
       var name := Remote(remote, op.update.name.branch);
       var r := w.repos[op.client];
       w' == Record(w, op.client, Write(r, name, op.update.next),
                    Event(op.client, name, Resolve(r.refs, name), op.update.next, false, false))
  }

  ghost predicate FetchList(w: World, c: nat, s: nat, wants: seq<Id>, haves: seq<Id>, w': World) {
    && c < |w.repos| && s < |w.repos|
    && Advertised(w.repos[s].refs, wants) && AllRefs(w.repos[c].refs, haves)
    && w' == w.(ops := w.ops + [FetchListed(c, s, wants, haves)])
  }

  ghost predicate FetchPack(w: World, i: nat, ids: set<Id>, known: set<Id>, w': World) {
    && i < |w.ops| && w.ops[i].FetchListed? && w.ops[i].server < |w.repos|
    && var op := w.ops[i];
       var store := w.repos[op.server].store;
       && ids <= store.Keys && Covers(store, op.wants, op.haves, ids, known)
       && w' == w.(ops := w.ops[i := FetchPacked(op.client, op.wants, Pick(store, ids))])
  }

  ghost predicate FetchIngest(w: World, i: nat, w': World) {
    && i < |w.ops| && w.ops[i].FetchPacked? && w.ops[i].client < |w.repos|
    && var op := w.ops[i];
       var r := w.repos[op.client];
       w' == w.(repos := w.repos[op.client := r.(store := Ingest(r.store, op.pack))],
                ops := w.ops[i := FetchIngested(op.client, op.wants)])
  }

  /** The client moves one tracking ref to what was advertised for it. */
  ghost predicate FetchTrack(w: World, i: nat, name: RefName, target: Id, w': World) {
    && i < |w.ops| && w.ops[i].FetchIngested? && w.ops[i].client < |w.repos|
    && name.Remote? && target in w.ops[i].wants
    && var op := w.ops[i];
       var r := w.repos[op.client];
       w' == Record(w, op.client, Write(r, name, target),
                    Event(op.client, name, Resolve(r.refs, name), target, false, false))
  }

  /** Any step of anybody. */
  datatype Action =
    | DoWrite(k: nat, objs: set<Id>, name: RefName, id: Id)
    | DoPushList(c: nat, s: nat, branch: string, force: bool, haves: seq<Id>)
    | DoPushPack(i: nat, ids: set<Id>, known: set<Id>)
    | DoPushIngest(i: nat)
    | DoPushUpdate(i: nat, refs: Refs, ok: bool)
    | DoPushTrack(i: nat, remote: string)
    | DoFetchList(c: nat, s: nat, wants: seq<Id>, haves: seq<Id>)
    | DoFetchPack(i: nat, ids: set<Id>, known: set<Id>)
    | DoFetchIngest(i: nat)
    | DoFetchTrack(i: nat, name: RefName, id: Id)

  ghost predicate Step(u: Store, w: World, a: Action, w': World) {
    match a
    case DoWrite(k, objs, name, id) => LocalWrite(u, w, k, objs, name, id, w')
    case DoPushList(c, s, branch, force, haves) => PushList(w, c, s, branch, force, haves, w')
    case DoPushPack(i, ids, known) => PushPack(w, i, ids, known, w')
    case DoPushIngest(i) => PushIngest(w, i, w')
    case DoPushUpdate(i, refs, ok) => PushUpdate(w, i, refs, ok, w')
    case DoPushTrack(i, remote) => PushTrack(w, i, remote, w')
    case DoFetchList(c, s, wants, haves) => FetchList(w, c, s, wants, haves, w')
    case DoFetchPack(i, ids, known) => FetchPack(w, i, ids, known, w')
    case DoFetchIngest(i) => FetchIngest(w, i, w')
    case DoFetchTrack(i, name, id) => FetchTrack(w, i, name, id, w')
  }

  // ----- the invariant -----

  ghost predicate HoldsAll(store: Store, ids: seq<Id>) {
    forall id | id in ids :: Holds(store, id)
  }

  /** Every ref names a commit whose whole closure is in the store. */
  ghost predicate RepoOk(u: Store, r: Repo) {
    PartOf(r.store, u) && forall name | name in r.refs :: Holds(r.store, r.refs[name])
  }

  ghost predicate OpOk(u: Store, repos: seq<Repo>, op: Op) {
    match op
    case PushListed(c, s, update, haves) =>
      && c < |repos| && s < |repos| && update.name.Head?
      && Holds(repos[c].store, update.next) && HoldsAll(repos[s].store, haves)
    case PushPacked(c, s, update, pack) =>
      && c < |repos| && s < |repos| && update.name.Head? && PartOf(pack, u)
      && Holds(repos[c].store, update.next) && Holds(Ingest(repos[s].store, pack), update.next)
    case PushIngested(c, s, update) =>
      && c < |repos| && s < |repos| && update.name.Head?
      && Holds(repos[c].store, update.next) && Holds(repos[s].store, update.next)
    case PushAccepted(c, update) =>
      c < |repos| && update.name.Head? && Holds(repos[c].store, update.next)
    case FetchListed(c, s, wants, haves) =>
      && c < |repos| && s < |repos| && HoldsAll(repos[s].store, wants) && HoldsAll(repos[c].store, haves)
    case FetchPacked(c, wants, pack) =>
      c < |repos| && PartOf(pack, u) && HoldsAll(Ingest(repos[c].store, pack), wants)
    case FetchIngested(c, wants) =>
      c < |repos| && HoldsAll(repos[c].store, wants)
  }

  ghost predicate Inv(u: Store, w: World) {
    && WellTyped(u) && ZERO !in u
    && (forall k | 0 <= k < |w.repos| :: RepoOk(u, w.repos[k]))
    && forall i | 0 <= i < |w.ops| :: OpOk(u, w.repos, w.ops[i])
  }

  // ----- stores only grow -----

  ghost predicate Grows(a: seq<Repo>, b: seq<Repo>) {
    |a| == |b| && forall k | 0 <= k < |a| :: PartOf(a[k].store, b[k].store)
  }

  lemma IngestGrows(u: Store, a: Store, b: Store, pack: Store)
    requires PartOf(a, b) && PartOf(b, u) && PartOf(pack, u)
    ensures PartOf(a, Ingest(a, pack)) && PartOf(Ingest(a, pack), Ingest(b, pack)) && PartOf(Ingest(b, pack), u)
  {
  }

  lemma HoldsAllGrows(a: Store, b: Store, ids: seq<Id>)
    requires PartOf(a, b) && HoldsAll(a, ids)
    ensures HoldsAll(b, ids)
  {
    forall id | id in ids ensures Holds(b, id) {
      HoldsGrows(a, b, id);
    }
  }

  lemma OpOkGrows(u: Store, a: seq<Repo>, b: seq<Repo>, op: Op)
    requires Grows(a, b) && OpOk(u, a, op) && forall k | 0 <= k < |b| :: PartOf(b[k].store, u)
    ensures OpOk(u, b, op)
  {
    match op
    case PushListed(c, s, update, haves) =>
      HoldsGrows(a[c].store, b[c].store, update.next);
      HoldsAllGrows(a[s].store, b[s].store, haves);
    case PushPacked(c, s, update, pack) =>
      HoldsGrows(a[c].store, b[c].store, update.next);
      IngestGrows(u, a[s].store, b[s].store, pack);
      HoldsGrows(Ingest(a[s].store, pack), Ingest(b[s].store, pack), update.next);
    case PushIngested(c, s, update) =>
      HoldsGrows(a[c].store, b[c].store, update.next);
      HoldsGrows(a[s].store, b[s].store, update.next);
    case PushAccepted(c, update) =>
      HoldsGrows(a[c].store, b[c].store, update.next);
    case FetchListed(c, s, wants, haves) =>
      HoldsAllGrows(a[s].store, b[s].store, wants);
      HoldsAllGrows(a[c].store, b[c].store, haves);
    case FetchPacked(c, wants, pack) =>
      IngestGrows(u, a[c].store, b[c].store, pack);
      HoldsAllGrows(Ingest(a[c].store, pack), Ingest(b[c].store, pack), wants);
    case FetchIngested(c, wants) =>
      HoldsAllGrows(a[c].store, b[c].store, wants);
  }

  /** Replacing one repository by a grown and sound one keeps everything under way sound. */
  lemma RepoChanges(u: Store, w: World, k: nat, r: Repo)
    requires Inv(u, w) && k < |w.repos| && RepoOk(u, r) && PartOf(w.repos[k].store, r.store)
    ensures var repos := w.repos[k := r];
            && Grows(w.repos, repos)
            && (forall j | 0 <= j < |repos| :: RepoOk(u, repos[j]))
            && forall i | 0 <= i < |w.ops| :: OpOk(u, repos, w.ops[i])
  {
    var repos := w.repos[k := r];
    forall i | 0 <= i < |w.ops| ensures OpOk(u, repos, w.ops[i]) {
      OpOkGrows(u, w.repos, repos, w.ops[i]);
    }
  }

  /** Taking a pack in keeps a repository sound. */
  lemma IngestKeepsRepo(u: Store, r: Repo, pack: Store)
    requires RepoOk(u, r) && PartOf(pack, u)
    ensures RepoOk(u, r.(store := Ingest(r.store, pack))) && PartOf(r.store, Ingest(r.store, pack))
  {
    IngestGrows(u, r.store, r.store, pack);
    forall name | name in r.refs ensures Holds(Ingest(r.store, pack), r.refs[name]) {
      HoldsGrows(r.store, Ingest(r.store, pack), r.refs[name]);
    }
  }

  /** Enough was packed: with the pack in, the receiver holds every want. */
  lemma PackSuffices(u: Store, sender: Store, receiver: Store, wants: seq<Id>, haves: seq<Id>, ids: set<Id>,
                     known: set<Id>)
    requires WellTyped(u) && PartOf(sender, u) && PartOf(receiver, u)
    requires HoldsAll(sender, wants) && HoldsAll(receiver, haves)
    requires ids <= sender.Keys && Covers(sender, wants, haves, ids, known)
    ensures PartOf(Pick(sender, ids), u) && HoldsAll(Ingest(receiver, Pick(sender, ids)), wants)
  {
    var pack := Pick(sender, ids);
    ReceiverIsCompleted(sender, receiver, wants, haves, ids, known);
    forall id | id in wants ensures Holds(Ingest(receiver, pack), id) {
      var after := Ingest(receiver, pack);
      assert Complete(after, id);
      ReachSelf(Objs(after), id);
      assert id in after;
    }
  }

  // ----- every step keeps the invariant -----

  lemma LocalWriteKeeps(u: Store, w: World, k: nat, objs: set<Id>, name: RefName, id: Id, w': World)
    requires Inv(u, w) && LocalWrite(u, w, k, objs, name, id, w')
    ensures Inv(u, w') && Grows(w.repos, w'.repos)
  {
    var r := w.repos[k];
    IngestKeepsRepo(u, r, Pick(u, objs));
    RepoChanges(u, w, k, Repo(Ingest(r.store, Pick(u, objs)), r.refs[name := id]));
  }

  lemma PushPackKeeps(u: Store, w: World, i: nat, ids: set<Id>, known: set<Id>, w': World)
    requires Inv(u, w) && PushPack(w, i, ids, known, w')
    ensures Inv(u, w') && Grows(w.repos, w'.repos)
  {
    var op := w.ops[i];
    assert OpOk(u, w.repos, op) && RepoOk(u, w.repos[op.client]) && RepoOk(u, w.repos[op.server]);
    var wants := [op.update.next];
    PackSuffices(u, w.repos[op.client].store, w.repos[op.server].store, wants, op.haves, ids, known);
    assert op.update.next in wants;
  }

  lemma PushIngestKeeps(u: Store, w: World, i: nat, w': World)
    requires Inv(u, w) && PushIngest(w, i, w')
    ensures Inv(u, w') && Grows(w.repos, w'.repos)
  {
    var op := w.ops[i];
    var r := w.repos[op.server];
    assert OpOk(u, w.repos, op);
    IngestKeepsRepo(u, r, op.pack);
    RepoChanges(u, w, op.server, r.(store := Ingest(r.store, op.pack)));
    HoldsGrows(w.repos[op.client].store, w'.repos[op.client].store, op.update.next);
  }

  lemma PushUpdateKeeps(u: Store, w: World, i: nat, refs: Refs, ok: bool, w': World)
    requires Inv(u, w) && PushUpdate(w, i, refs, ok, w')
    ensures Inv(u, w') && Grows(w.repos, w'.repos)
  {
    var op := w.ops[i];
    var r := w.repos[op.server];
    assert OpOk(u, w.repos, op);
    if ok {
      RepoChanges(u, w, op.server, Repo(r.store, refs));
      assert w'.repos[op.client].store == w.repos[op.client].store;
    }
  }

  lemma PushTrackKeeps(u: Store, w: World, i: nat, remote: string, w': World)
    requires Inv(u, w) && PushTrack(w, i, remote, w')
    ensures Inv(u, w') && Grows(w.repos, w'.repos)
  {
    var op := w.ops[i];
    assert OpOk(u, w.repos, op);
    RepoChanges(u, w, op.client, Write(w.repos[op.client], Remote(remote, op.update.name.branch), op.update.next));
  }

  lemma FetchPackKeeps(u: Store, w: World, i: nat, ids: set<Id>, known: set<Id>, w': World)
    requires Inv(u, w) && FetchPack(w, i, ids, known, w')
    ensures Inv(u, w') && Grows(w.repos, w'.repos)
  {
    var op := w.ops[i];
    assert OpOk(u, w.repos, op) && RepoOk(u, w.repos[op.client]) && RepoOk(u, w.repos[op.server]);
    PackSuffices(u, w.repos[op.server].store, w.repos[op.client].store, op.wants, op.haves, ids, known);
  }

  lemma FetchIngestKeeps(u: Store, w: World, i: nat, w': World)
    requires Inv(u, w) && FetchIngest(w, i, w')
    ensures Inv(u, w') && Grows(w.repos, w'.repos)
  {
    var op := w.ops[i];
    var r := w.repos[op.client];
    assert OpOk(u, w.repos, op);
    IngestKeepsRepo(u, r, op.pack);
    RepoChanges(u, w, op.client, r.(store := Ingest(r.store, op.pack)));
  }

  lemma FetchTrackKeeps(u: Store, w: World, i: nat, name: RefName, target: Id, w': World)
    requires Inv(u, w) && FetchTrack(w, i, name, target, w')
    ensures Inv(u, w') && Grows(w.repos, w'.repos)
  {
    var op := w.ops[i];
    assert OpOk(u, w.repos, op);
    RepoChanges(u, w, op.client, Write(w.repos[op.client], name, target));
  }

  lemma ListKeeps(u: Store, w: World, a: Action, w': World)
    requires Inv(u, w) && Step(u, w, a, w') && (a.DoPushList? || a.DoFetchList?)
    ensures Inv(u, w') && Grows(w.repos, w'.repos)
  {
    assert RepoOk(u, w.repos[a.c]) && RepoOk(u, w.repos[a.s]);
    assert OpOk(u, w.repos, w'.ops[|w.ops|]);
  }

  lemma StepKeepsInv(u: Store, w: World, a: Action, w': World)
    requires Inv(u, w) && Step(u, w, a, w')
    ensures Inv(u, w') && Grows(w.repos, w'.repos)
  {
    match a
    case DoWrite(k, objs, name, id) => LocalWriteKeeps(u, w, k, objs, name, id, w');
    case DoPushList(_, _, _, _, _) => ListKeeps(u, w, a, w');
    case DoPushPack(i, ids, known) => PushPackKeeps(u, w, i, ids, known, w');
    case DoPushIngest(i) => PushIngestKeeps(u, w, i, w');
    case DoPushUpdate(i, refs, ok) => PushUpdateKeeps(u, w, i, refs, ok, w');
    case DoPushTrack(i, remote) => PushTrackKeeps(u, w, i, remote, w');
    case DoFetchList(_, _, _, _) => ListKeeps(u, w, a, w');
    case DoFetchPack(i, ids, known) => FetchPackKeeps(u, w, i, ids, known, w');
    case DoFetchIngest(i) => FetchIngestKeeps(u, w, i, w');
    case DoFetchTrack(i, name, id) => FetchTrackKeeps(u, w, i, name, id, w');
  }
}
