/** Content-addressed objects. An ID stands for the hash of its object; only equality of IDs matters. */
module Objects {

  type Id = nat

  /** The ID that stands for no commit. */
  const ZERO: Id := 0

  /** The mode that marks a subdirectory (octal 040000). */
  const MODE_SUBTREE := 0x4000

  datatype TreeEntry = TreeEntry(mode: nat, name: string, hash: Id)

  datatype Obj =
    | Commit(tree: Id, parents: seq<Id>)
    | Tree(entries: seq<TreeEntry>)
    | Blob(data: string)

  type Store = map<Id, Obj>

  function Elems<T>(s: seq<T>): set<T> { set x | x in s }

  predicate IsCommit(store: Store, id: Id) {
    id in store && store[id].Commit?
  }

  /** The parents of a commit; nothing for what is not a readable commit. */
  function Parents(store: Store, id: Id): set<Id> {
    if IsCommit(store, id) then Elems(store[id].parents) else {}
  }

  /** The objects an object names. */
  function Refs(store: Store, id: Id): set<Id> {
    if id !in store then {}
    else
      match store[id]
      case Commit(tree, parents) => {tree} + Elems(parents)
      case Tree(entries) => set e | e in entries :: e.hash
      case Blob(_) => {}
  }

  /** Where two stores both have an object, it is the same one. */
  ghost predicate Agree(a: Store, b: Store) {
    forall id | id in a && id in b :: a[id] == b[id]
  }

  /**
   References have the type their position calls for: the subdirectory mode stands exactly on
   entries that name trees, parents are commits, a commit's tree is a tree.
   */
  ghost predicate WellTyped(store: Store) {
    forall id | id in store :: WellTypedObject(store, store[id])
  }

  ghost predicate WellTypedObject(store: Store, o: Obj) {
    match o
    case Commit(tree, parents) =>
      && (tree in store ==> store[tree].Tree?)
      && forall p | p in parents :: p in store ==> store[p].Commit?
    case Tree(entries) =>
      forall e | e in entries ::
        e.hash in store ==> if e.mode == MODE_SUBTREE then store[e.hash].Tree? else store[e.hash].Blob?
    case Blob(_) => true
  }

  /** Everything the smaller store has, the larger one has too. */
  ghost predicate PartOf(store: Store, larger: Store) {
    forall id | id in store :: id in larger && larger[id] == store[id]
  }
}
