/** Reading a stored tree back as a flat map from paths to blobs. */
module TreeRead {

  import opened Objects
  import opened Paths
  import opened IndexTree
  import opened TreeStore

  /** The hash admits no tree that contains itself: some rank falls from every tree to its subtrees. */
  ghost predicate Founded(h: Obj -> Id, rank: Id -> nat) {
    forall o: Obj, e | o.Tree? && e in o.entries && e.mode == MODE_SUBTREE :: rank(e.hash) < rank(h(o))
  }

  /** Every object the walk opens is there and is a tree. */
  ghost predicate Readable(store: Store, h: Obj -> Id, rank: Id -> nat, id: Id)
    requires Hashed(h, store) && Founded(h, rank)
    decreases rank(id)
  {
    id in store && store[id].Tree? &&
    forall e | e in store[id].entries && e.mode == MODE_SUBTREE ::
      rank(e.hash) < rank(h(store[id])) && Readable(store, h, rank, e.hash)
  }

  ghost predicate SlashFree(m: Files) {
    forall q, k | q in m && k in q :: '/' !in k
  }

  /** No file sits where another has a directory. */
  ghost predicate NoFileAbove(m: Files) {
    forall p, q | p in m && q in m :: !(p < q)
  }

  ghost predicate Plain(m: Files) {
    [] !in m && SlashFree(m) && NoFileAbove(m)
  }

  /** The string names one of the files below the prefix, whose first name is one of these. */
  ghost predicate IsFile(m: Files, prefix: string, names: set<string>, s: string) {
    prefix <= s && Split(s[|prefix|..]) in m && Split(s[|prefix|..])[0] in names
  }

  /** What out holds for the string: the blob of the file it names, or what it held before. */
  ghost predicate Sees(before: map<string, Id>, out: map<string, Id>, m: Files, prefix: string, names: set<string>,
                       s: string) {
    if IsFile(m, prefix, names, s) then s in out && out[s] == m[Split(s[|prefix|..])]
    else (s in out <==> s in before) && (s in out && s in before ==> out[s] == before[s])
  }

  ghost predicate Filled(before: map<string, Id>, out: map<string, Id>, m: Files, prefix: string, names: set<string>) {
    forall s :: Sees(before, out, m, prefix, names, s)
  }

  // ----- one more name -----

  lemma SplitOf(prefix: string, k: string, s: string)
    requires prefix <= s && '/' !in k
    ensures Split(s[|prefix|..]) == [k] <==> s == prefix + k
  {
    var t := s[|prefix|..];
    assert s == prefix + t;
    SplitName(k, "");
    if Split(t) == [k] {
      SplitIsInjective(t, k);
    }
    if s == prefix + k {
      assert t == k;
    }
  }

  lemma SplitUnder(prefix: string, k: string, s: string)
    requires '/' !in k
    ensures prefix + k + "/" <= s ==> prefix <= s && Split(s[|prefix|..]) == [k] + Split(s[|prefix + k + "/"|..])
  {
    var deep := prefix + k + "/";
    if deep <= s {
      var rest := s[|deep|..];
      assert s == deep + rest;
      assert s == prefix + (k + "/" + rest);
      assert s[|prefix|..] == k + "/" + rest;
      SplitName(k, rest);
    }
  }

  lemma CutAtSlash(prefix: string, k: string, s: string, t: string, n: nat)
    requires s == prefix + t && n < |t| && t[..n] == k && t[n] == '/'
    ensures prefix + k + "/" <= s
  {
    assert t == k + "/" + t[n + 1..];
    assert s == prefix + k + "/" + t[n + 1..];
  }

  lemma UnderSplit(prefix: string, k: string, s: string)
    requires prefix <= s && |Split(s[|prefix|..])| > 1 && Split(s[|prefix|..])[0] == k
    ensures prefix + k + "/" <= s
  {
    var t := s[|prefix|..];
    CutAtSlash(prefix, k, s, t, NameLen(t));
  }

  lemma FileSeen(before: map<string, Id>, out: map<string, Id>, m: Files, prefix: string, names: set<string>,
                 k: string, s: string)
    requires Sees(before, out, m, prefix, names, s) && Plain(m) && [k] in m
    ensures Sees(before, out[prefix + k := m[[k]]], m, prefix, names + {k}, s)
  {
    assert k in [k];
    if prefix <= s {
      SplitOf(prefix, k, s);
      var parts := Split(s[|prefix|..]);
      if parts in m && parts[0] == k {
        assert [k] <= parts;
        assert !([k] < parts);
      }
    }
  }

  lemma DirSeen(before: map<string, Id>, mid: map<string, Id>, out: map<string, Id>, m: Files, prefix: string,
                names: set<string>, k: string, s: string)
    requires Sees(before, mid, m, prefix, names, s) && '/' !in k && [k] !in m
    requires Sees(mid, out, Below(m, [k]), prefix + k + "/", First(Below(m, [k])), s)
    ensures Sees(before, out, m, prefix, names + {k}, s)
  {
    var deep, sub := prefix + k + "/", Below(m, [k]);
    SplitUnder(prefix, k, s);
    if deep <= s {
      var rest := Split(s[|deep|..]);
      BelowHas(m, [k], rest);
      assert rest in sub ==> rest[0] in First(sub);
    } else if prefix <= s {
      var parts := Split(s[|prefix|..]);
      if parts in m && parts[0] == k {
        assert parts != [k];
        UnderSplit(prefix, k, s);
      }
    }
  }

  lemma FileFilled(before: map<string, Id>, out: map<string, Id>, m: Files, prefix: string, names: set<string>,
                   k: string)
    requires Filled(before, out, m, prefix, names) && Plain(m) && [k] in m
    ensures Filled(before, out[prefix + k := m[[k]]], m, prefix, names + {k})
  {
    var after := out[prefix + k := m[[k]]];
    forall s ensures Sees(before, after, m, prefix, names + {k}, s) {
      FileSeen(before, out, m, prefix, names, k, s);
    }
  }

  lemma DirFilled(before: map<string, Id>, mid: map<string, Id>, out: map<string, Id>, m: Files, prefix: string,
                  names: set<string>, k: string)
    requires Filled(before, mid, m, prefix, names) && '/' !in k && [k] !in m
    requires Filled(mid, out, Below(m, [k]), prefix + k + "/", First(Below(m, [k])))
    ensures Filled(before, out, m, prefix, names + {k})
  {
    forall s ensures Sees(before, out, m, prefix, names + {k}, s) {
      DirSeen(before, mid, out, m, prefix, names, k, s);
    }
  }

  lemma BelowIsPlain(m: Files, k: string)
    requires Plain(m) && [k] !in m
    ensures Plain(Below(m, [k]))
  {
    var b := Below(m, [k]);
    BelowHas(m, [k], []);
    assert [k] + [] == [k];
    forall q ensures q in b ==> forall j | j in q :: '/' !in j {
      BelowHas(m, [k], q);
      assert forall j | j in q :: j in [k] + q;
    }
    forall p, q ensures p in b && q in b ==> !(p < q) {
      BelowHas(m, [k], p);
      BelowHas(m, [k], q);
      assert p < q ==> [k] + p < [k] + q;
    }
  }

  // ----- the walk -----

  /** The names met among the first entries of a tree. */
  lemma NamesSoFar(es: seq<TreeEntry>, i: nat)
    requires i < |es|
    ensures NamesOf(es[..i + 1]) == NamesOf(es[..i]) + {es[i].name}
  {
    assert es[..i + 1] == es[..i] + [es[i]];
    forall k ensures k in NamesOf(es[..i + 1]) <==> k in NamesOf(es[..i]) + {es[i].name} {
      if k in NamesOf(es[..i + 1]) {
        var e :| e in es[..i + 1] && e.name == k;
      }
      if k in NamesOf(es[..i]) {
        var e :| e in es[..i] && e.name == k;
        assert e in es[..i + 1];
      }
      if k == es[i].name { assert es[i] in es[..i + 1]; }
    }
  }

  /** The files are stored under the ID and their names can be told apart. */
  ghost predicate Sound(store: Store, id: Id, m: Files, n: nat) {
    forall s | s == store :: Stored(s, id, m, n) && Plain(m)
  }

  lemma SoundEntry(store: Store, id: Id, m: Files, n: nat, e: TreeEntry)
    requires Sound(store, id, m, n) && id in store && store[id].Tree? && e in store[id].entries
    ensures '/' !in e.name
    ensures [e.name] in m <==> e.mode != MODE_SUBTREE
    ensures [e.name] in m ==> e.hash == m[[e.name]] && Plain(m)
    ensures [e.name] !in m ==> n > 0 && Sound(store, e.hash, Below(m, [e.name]), n - 1)
  {
    assert Stored(store, id, m, n);
    assert StoredEntry(store, e, m, n);
    assert e.name in NamesOf(store[id].entries);
    var q :| q in m && q != [] && q[0] == e.name;
    assert e.name in q;
    if [e.name] !in m {
      BelowIsPlain(m, e.name);
      assert Stored(store, e.hash, Below(m, [e.name]), n - 1);
    }
  }

  ghost predicate FilledSoFar(before: map<string, Id>, out: map<string, Id>, m: Files, prefix: string,
                              names: set<string>) {
    forall o | o == out :: Filled(before, o, m, prefix, names)
  }

  /** Fills in the paths of all files below a stored tree; false where an object is missing or no tree. */
  method WalkTreeBlobs(h: Obj -> Id, store: Store, ghost rank: Id -> nat, id: Id, prefix: string, before: map<string,
                       Id>,
                       ghost m: Files, ghost n: nat) returns (ok: bool, out: map<string, Id>)
    requires Hashed(h, store) && Founded(h, rank)
    ensures ok <==> Readable(store, h, rank, id)
    ensures Sound(store, id, m, n) ==> ok && FilledSoFar(before, out, m, prefix, First(m))
    decreases rank(id)
  {
    out := before;
    if id !in store || !store[id].Tree? {
      if Sound(store, id, m, n) { assert Stored(store, id, m, n); }
      return false, out;
    }
    ok := true;
    var entries := store[id].entries;
    ghost var good := Sound(store, id, m, n);
    assert Filled(before, out, m, prefix, {});
    var i := 0;
    while i < |entries|
      invariant 0 <= i <= |entries| && ok
      invariant forall j | 0 <= j < i && entries[j].mode == MODE_SUBTREE :: Readable(store, h, rank, entries[j].hash)
      invariant good ==> FilledSoFar(before, out, m, prefix, NamesOf(entries[..i]))
    {
      var e := entries[i];
      NamesSoFar(entries, i);
      if good { SoundEntry(store, id, m, n, e); }
      if e.mode == MODE_SUBTREE {
        assert rank(e.hash) < rank(h(store[id]));
        ghost var mid := out;
        ghost var deeper: nat := if n > 0 then n - 1 else 0;
        ok, out := WalkTreeBlobs(h, store, rank, e.hash, prefix + e.name + "/", out, Below(m, [e.name]), deeper);
        if !ok {
          return;
        }
        if good { StepDir(before, mid, out, m, prefix, NamesOf(entries[..i]), e.name); }
      } else {
        if good { StepFile(before, out, m, prefix, NamesOf(entries[..i]), e.name); }
        out := out[prefix + e.name := e.hash];
      }
      i := i + 1;
    }
    assert entries[..i] == entries;
    if good { assert Stored(store, id, m, n); }
  }

  lemma StepFile(before: map<string, Id>, out: map<string, Id>, m: Files, prefix: string, names: set<string>, k: string)
    requires FilledSoFar(before, out, m, prefix, names) && Plain(m) && [k] in m
    ensures FilledSoFar(before, out[prefix + k := m[[k]]], m, prefix, names + {k})
  {
    assert Filled(before, out, m, prefix, names);
    FileFilled(before, out, m, prefix, names, k);
  }

  lemma StepDir(before: map<string, Id>, mid: map<string, Id>, out: map<string, Id>, m: Files, prefix: string,
                names: set<string>, k: string)
    requires FilledSoFar(before, mid, m, prefix, names) && '/' !in k && [k] !in m
    requires FilledSoFar(mid, out, Below(m, [k]), prefix + k + "/", First(Below(m, [k])))
    ensures FilledSoFar(before, out, m, prefix, names + {k})
  {
    assert Filled(before, mid, m, prefix, names);
    assert Filled(mid, out, Below(m, [k]), prefix + k + "/", First(Below(m, [k])));
    DirFilled(before, mid, out, m, prefix, names, k);
  }

  method TreeBlobs(h: Obj -> Id, store: Store, ghost rank: Id -> nat, id: Id, ghost m: Files, ghost n: nat)
    returns (ok: bool, out: map<string, Id>)
    requires Hashed(h, store) && Founded(h, rank)
    ensures ok <==> Readable(store, h, rank, id)
    ensures Sound(store, id, m, n)
      ==> ok && forall s :: (s in out <==> Split(s) in m) && (s in out && Split(s) in m ==> out[s] == m[Split(s)])
  {
    ok, out := WalkTreeBlobs(h, store, rank, id, "", map[], m, n);
    if Sound(store, id, m, n) {
      assert Filled(map[], out, m, "", First(m));
      forall s ensures (s in out <==> Split(s) in m) && (s in out && Split(s) in m ==> out[s] == m[Split(s)]) {
        assert Sees(map[], out, m, "", First(m), s);
        assert s[|""|..] == s;
      }
    }
  }

  // ----- there and back -----

  lemma WrittenIsPlain(entries: seq<Entry>)
    requires !Blocked(entries)
    ensures Plain(Written(entries))
  {
    var w := Written(entries);
    forall q ensures q in w ==> q != [] && forall k | k in q :: '/' !in k {
      if q in w {
        WrittenNames(entries, q);
        var i :| 0 <= i < |entries| && IsLive(entries[i]) && Split(entries[i].path) == q;
        SplitIsSlashFree(entries[i].path);
      }
    }
    forall p, q ensures p in w && q in w ==> !(p < q) {
      if p in w && q in w { FilesHaveNothingBelow(entries, p, q); }
    }
  }

  /**
   Building the tree of an index and reading it back gives the live paths with their last blobs,
   and the root ID depends on that map alone.
   */
  method BuildAndReadBack(h: Obj -> Id, ghost rank: Id -> nat, entries: seq<Entry>, store: Store)
    returns (built: bool, id: Id, blobs: map<string, Id>)
    requires Injective(h) && Hashed(h, store) && Founded(h, rank)
    ensures built <==> !Blocked(entries)
    ensures built ==> id == RootId(h, Written(entries))
    ensures built && blobs == Live(entries) <==> PrefixFree(entries)
  {
    var after;
    built, id, after := BuildTree(h, entries, store);
    blobs := map[];
    KeepsAllIffPrefixFree(entries);
    if built {
      ghost var m := Written(entries);
      WrittenIsPlain(entries);
      assert Sound(after, id, m, Bound(m)) by { assert Stored(after, id, m, Bound(m)); }
      var ok;
      ok, blobs := TreeBlobs(h, after, rank, id, m, Bound(m));
      SameAsLive(entries, blobs);
    }
  }

  lemma SameAsLive(entries: seq<Entry>, blobs: map<string, Id>)
    requires forall s :: s in blobs <==> Split(s) in Written(entries)
    requires forall s | s in blobs && Split(s) in Written(entries) :: blobs[s] == Written(entries)[Split(s)]
    ensures blobs == Live(entries) <==> KeepsAll(entries)
  {
    if KeepsAll(entries) {
      forall s
        ensures s in blobs <==> s in Live(entries)
        ensures s in blobs && s in Live(entries) ==> blobs[s] == Live(entries)[s]
      {
        assert KeepsOne(entries, s);
      }
      assert blobs == Live(entries);
    }
  }

  /** Two prefix-free indexes with the same live files have the same root ID, whatever the order of their entries. */
  lemma RootFromLiveAlone(h: Obj -> Id, a: seq<Entry>, b: seq<Entry>)
    requires PrefixFree(a) && PrefixFree(b) && Live(a) == Live(b)
    ensures Written(a) == Written(b) && RootId(h, Written(a)) == RootId(h, Written(b))
  {
    KeepsAllIffPrefixFree(a);
    KeepsAllIffPrefixFree(b);
    forall q
      ensures q in Written(a) <==> q in Written(b)
      ensures q in Written(a) && q in Written(b) ==> Written(a)[q] == Written(b)[q]
    {
      if q in Written(a) { FromLive(a, b, q); }
      if q in Written(b) { FromLive(b, a, q); }
    }
    assert Written(a) == Written(b);
  }

  lemma FromLive(a: seq<Entry>, b: seq<Entry>, q: Path)
    requires KeepsAll(a) && KeepsAll(b) && Live(a) == Live(b) && q in Written(a)
    ensures q in Written(b) && Written(a)[q] == Written(b)[q]
  {
    WrittenNames(a, q);
    var i :| 0 <= i < |a| && IsLive(a[i]) && Split(a[i].path) == q;
    assert KeepsOne(a, a[i].path) && KeepsOne(b, a[i].path);
  }
}
