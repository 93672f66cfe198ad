/**
 The browser's cache storage as the service worker sees it: an ordered list of
 named caches, each a map from a request key (method and URL, used as-is) to a
 stored response. The operations follow the Cache and CacheStorage interfaces
 of the W3C Service Workers specification (sections 5.4 and 5.5): `match`
 searches every cache in creation order, `open` creates a missing cache at the
 end, `put` and `addAll` overwrite entries, `delete` removes a cache by name.
 */
module CacheStorage {

  datatype Option<+T> = None | Some(value: T)

  /** A response snapshot; bodies are immutable values, so a clone is the same value. */
  datatype Response = Response(status: int, body: string)

  /** The key a cache entry is stored under: request method and URL, no normalisation. */
  datatype RequestKey = RequestKey(httpMethod: string, url: string)

  datatype NamedCache = NamedCache(name: string, entries: map<RequestKey, Response>)

  /** Caches in creation order. */
  type Storage = seq<NamedCache>

  function Names(s: Storage): seq<string>
  {
    seq(|s|, i requires 0 <= i < |s| => s[i].name)
  }

  predicate HasCache(s: Storage, name: string)
  {
    exists i :: 0 <= i < |s| && s[i].name == name
  }

  /** CacheStorage maps names to caches: no name occurs twice. */
  ghost predicate DistinctNames(s: Storage)
  {
    forall i, j :: 0 <= i < j < |s| ==> s[i].name != s[j].name
  }

  /** `caches.match(key)`: the entry of the first cache, in creation order, that holds the key. */
  function Lookup(s: Storage, k: RequestKey): (r: Option<Response>)
    ensures r.Some? <==> exists i :: 0 <= i < |s| && k in s[i].entries
    ensures r.Some? ==> exists i :: 0 <= i < |s| && k in s[i].entries && s[i].entries[k] == r.value
                                   && forall j :: 0 <= j < i ==> k !in s[j].entries
  {
    if s == [] then None
    else if k in s[0].entries then Some(s[0].entries[k])
    else
      var r := Lookup(s[1..], k);
      assert forall i :: 1 <= i < |s| ==> s[i] == s[1..][i - 1];
      r
  }

  /** A single cache's `match`. */
  function Get(entries: map<RequestKey, Response>, k: RequestKey): Option<Response>
  {
    if k in entries then Some(entries[k]) else None
  }

  /** The entries of the cache with the given name; empty when there is none. */
  function Entries(s: Storage, name: string): map<RequestKey, Response>
  {
    if s == [] then map[]
    else if s[0].name == name then s[0].entries
    else Entries(s[1..], name)
  }

  /** `caches.open(name)`: the named cache, created empty at the end if missing. */
  function Open(s: Storage, name: string): (r: Storage)
    ensures HasCache(r, name)
    ensures DistinctNames(s) ==> DistinctNames(r)
    ensures r == s || (!HasCache(s, name) && r == s + [NamedCache(name, map[])])
    ensures Names(r) == Names(s) || (!HasCache(s, name) && Names(r) == Names(s) + [name])
  {
    if HasCache(s, name) then s
    else
      var r := s + [NamedCache(name, map[])];
      assert r[|s|].name == name;
      assert Names(r) == Names(s) + [name];
      r
  }

  /**
   `cache.put` / `cache.addAll` into the cache called `name`: every pair of
   `batch` is written, overwriting an entry with the same key.
   */
  function Store(s: Storage, name: string, batch: map<RequestKey, Response>): (r: Storage)
    ensures Names(r) == Names(s)
    ensures DistinctNames(s) ==> DistinctNames(r)
  {
    seq(|s|, i requires 0 <= i < |s| =>
      if s[i].name == name then NamedCache(name, s[i].entries + batch) else s[i])
  }

  /** `caches.delete(name)`: the storage without the cache of that name. */
  function Delete(s: Storage, name: string): (r: Storage)
    ensures |r| <= |s|
  {
    if s == [] then []
    else if s[0].name == name then Delete(s[1..], name)
    else [s[0]] + Delete(s[1..], name)
  }

  /** The caches whose name is `keep`, in order; what remains when every other name is deleted. */
  function Retain(s: Storage, keep: string): (r: Storage)
    ensures |r| <= |s|
  {
    if s == [] then []
    else if s[0].name == keep then [s[0]] + Retain(s[1..], keep)
    else Retain(s[1..], keep)
  }

  /** Deleting a name keeps exactly the caches with other names. */
  lemma {:induction false} DeleteKeepsOthers(s: Storage, name: string)
    ensures forall c :: c in Delete(s, name) <==> c in s && c.name != name
  {
    if s != [] {
      DeleteKeepsOthers(s[1..], name);
      assert forall c :: c in s <==> c == s[0] || c in s[1..];
    }
  }

  /** Retaining a name keeps exactly the caches with that name. */
  lemma {:induction false} RetainKeepsNamed(s: Storage, keep: string)
    ensures forall c :: c in Retain(s, keep) <==> c in s && c.name == keep
  {
    if s != [] {
      RetainKeepsNamed(s[1..], keep);
      assert forall c :: c in s <==> c == s[0] || c in s[1..];
    }
  }

  // ---------------------------------------------------------------------------
  // Lemmas about the storage operations
  // ---------------------------------------------------------------------------

  lemma {:induction false} DeleteAppend(a: Storage, b: Storage, name: string)
    ensures Delete(a + b, name) == Delete(a, name) + Delete(b, name)
  {
    if a != [] {
      assert (a + b)[0] == a[0];
      assert (a + b)[1..] == a[1..] + b;
      DeleteAppend(a[1..], b, name);
    } else {
      assert a + b == b;
    }
  }

  lemma {:induction false} DeleteAbsent(s: Storage, name: string)
    requires !HasCache(s, name)
    ensures Delete(s, name) == s
  {
    if s != [] {
      assert s[0].name != name;
      assert !HasCache(s[1..], name) by {
        forall i | 0 <= i < |s[1..]| ensures s[1..][i].name != name {
          assert s[1..][i] == s[i + 1];
        }
      }
      DeleteAbsent(s[1..], name);
      assert [s[0]] + s[1..] == s;
    }
  }

  lemma {:induction false} RetainAppend(a: Storage, b: Storage, keep: string)
    ensures Retain(a + b, keep) == Retain(a, keep) + Retain(b, keep)
  {
    if a != [] {
      assert (a + b)[0] == a[0];
      assert (a + b)[1..] == a[1..] + b by {
        assert forall i :: 0 <= i < |a[1..] + b| ==> (a + b)[1..][i] == (a[1..] + b)[i];
      }
      RetainAppend(a[1..], b, keep);
    } else {
      assert a + b == b;
    }
  }

  /** After retaining `keep`, no other name is left. */
  lemma {:induction false} RetainOnlyKeep(s: Storage, keep: string)
    ensures forall i :: 0 <= i < |Retain(s, keep)| ==> Retain(s, keep)[i].name == keep
  {
    if s != [] {
      RetainOnlyKeep(s[1..], keep);
    }
  }

  lemma {:induction false} RetainAbsent(s: Storage, keep: string)
    requires !HasCache(s, keep)
    ensures Retain(s, keep) == []
  {
    if s != [] {
      assert s[0].name != keep;
      assert !HasCache(s[1..], keep) by {
        forall i | 0 <= i < |s[1..]| ensures s[1..][i].name != keep {
          assert s[1..][i] == s[i + 1];
        }
      }
      RetainAbsent(s[1..], keep);
    }
  }

  /** Retaining one name of a storage with distinct names leaves at most that one cache, untouched. */
  lemma {:induction false} RetainDistinct(s: Storage, keep: string)
    requires DistinctNames(s)
    ensures Retain(s, keep) == if HasCache(s, keep) then [NamedCache(keep, Entries(s, keep))] else []
  {
    if s == [] {
    } else {
      assert DistinctNames(s[1..]) by {
        forall i, j | 0 <= i < j < |s[1..]| ensures s[1..][i].name != s[1..][j].name {
          assert s[1..][i] == s[i + 1] && s[1..][j] == s[j + 1];
        }
      }
      if s[0].name == keep {
        assert !HasCache(s[1..], keep) by {
          forall i | 0 <= i < |s[1..]| ensures s[1..][i].name != keep {
            assert s[1..][i] == s[i + 1];
          }
        }
        RetainAbsent(s[1..], keep);
      } else {
        RetainDistinct(s[1..], keep);
        assert HasCache(s, keep) <==> HasCache(s[1..], keep) by {
          if HasCache(s, keep) {
            var i :| 0 <= i < |s| && s[i].name == keep;
            assert s[1..][i - 1] == s[i];
          }
          if HasCache(s[1..], keep) {
            var i :| 0 <= i < |s[1..]| && s[1..][i].name == keep;
            assert s[i + 1] == s[1..][i];
          }
        }
      }
    }
  }

  /** Retaining is idempotent. */
  lemma {:induction false} RetainIdempotent(s: Storage, keep: string)
    ensures Retain(Retain(s, keep), keep) == Retain(s, keep)
  {
    if s != [] {
      RetainIdempotent(s[1..], keep);
    }
  }

  /** The retained cache keeps the contents it had. */
  lemma {:induction false} EntriesAfterRetain(s: Storage, keep: string)
    ensures Entries(Retain(s, keep), keep) == Entries(s, keep)
  {
    if s != [] {
      EntriesAfterRetain(s[1..], keep);
    }
  }

  /** Opening a cache changes what no lookup sees. */
  lemma {:induction false} LookupAfterOpen(s: Storage, name: string, k: RequestKey)
    ensures Lookup(Open(s, name), k) == Lookup(s, k)
  {
    if !HasCache(s, name) {
      LookupAppendEmpty(s, name, k);
    }
  }

  lemma {:induction false} LookupAppendEmpty(s: Storage, name: string, k: RequestKey)
    ensures Lookup(s + [NamedCache(name, map[])], k) == Lookup(s, k)
  {
    if s != [] {
      assert (s + [NamedCache(name, map[])])[1..] == s[1..] + [NamedCache(name, map[])];
      LookupAppendEmpty(s[1..], name, k);
    }
  }

  lemma {:induction false} EntriesAfterOpen(s: Storage, name: string, other: string)
    ensures Entries(Open(s, name), other) == Entries(s, other)
  {
    if !HasCache(s, name) {
      EntriesAppendEmpty(s, name, other);
    }
  }

  lemma {:induction false} EntriesAppendEmpty(s: Storage, name: string, other: string)
    ensures Entries(s + [NamedCache(name, map[])], other) == Entries(s, other)
  {
    if s != [] {
      assert (s + [NamedCache(name, map[])])[1..] == s[1..] + [NamedCache(name, map[])];
      EntriesAppendEmpty(s[1..], name, other);
    }
  }

  lemma StoreTail(s: Storage, name: string, batch: map<RequestKey, Response>)
    requires s != []
    ensures Store(s, name, batch)[1..] == Store(s[1..], name, batch)
  {
  }

  /**
   Storing a batch into an existing cache: that cache gains the batch (later
   writes overwrite), every other cache keeps its contents.
   */
  lemma {:induction false} EntriesAfterStore(s: Storage, name: string, batch: map<RequestKey, Response>, other: string)
    requires HasCache(s, name)
    ensures Entries(Store(s, name, batch), other) ==
            if other == name then Entries(s, name) + batch else Entries(s, other)
  {
    if s[0].name != name {
      assert HasCache(s[1..], name) by {
        var i :| 0 <= i < |s| && s[i].name == name;
        assert s[1..][i - 1] == s[i];
      }
      StoreTail(s, name, batch);
      EntriesAfterStore(s[1..], name, batch, other);
    } else if other != name {
      StoreTail(s, name, batch);
      EntriesAfterStoreOther(s[1..], name, batch, other);
    }
  }

  lemma {:induction false} EntriesAfterStoreOther(s: Storage, name: string, batch: map<RequestKey, Response>, other: string)
    requires other != name
    ensures Entries(Store(s, name, batch), other) == Entries(s, other)
  {
    if s != [] {
      StoreTail(s, name, batch);
      EntriesAfterStoreOther(s[1..], name, batch, other);
    }
  }

  /** A key the batch does not write is looked up exactly as before. */
  lemma {:induction false} LookupAfterStoreOther(s: Storage, name: string, batch: map<RequestKey, Response>, k: RequestKey)
    requires k !in batch
    ensures Lookup(Store(s, name, batch), k) == Lookup(s, k)
  {
    if s != [] {
      StoreTail(s, name, batch);
      LookupAfterStoreOther(s[1..], name, batch, k);
    }
  }

  /** A key no cache held before is found, after the store, with the value the batch wrote. */
  lemma {:induction false} LookupAfterStoreNew(s: Storage, name: string, batch: map<RequestKey, Response>, k: RequestKey)
    requires HasCache(s, name) && k in batch && Lookup(s, k) == None
    ensures Lookup(Store(s, name, batch), k) == Some(batch[k])
  {
    if s[0].name != name {
      assert k !in s[0].entries;
      assert HasCache(s[1..], name) by {
        var i :| 0 <= i < |s| && s[i].name == name;
        assert s[1..][i - 1] == s[i];
      }
      StoreTail(s, name, batch);
      LookupAfterStoreNew(s[1..], name, batch, k);
    }
  }

  /** With distinct names, the whole storage after retaining `keep` answers lookups from that cache alone. */
  lemma LookupAfterRetain(s: Storage, keep: string, k: RequestKey)
    requires DistinctNames(s)
    ensures Lookup(Retain(s, keep), k) == Get(Entries(s, keep), k)
  {
    RetainDistinct(s, keep);
    if !HasCache(s, keep) {
      EntriesNone(s, keep);
    }
  }

  lemma {:induction false} EntriesNone(s: Storage, name: string)
    requires !HasCache(s, name)
    ensures Entries(s, name) == map[]
  {
    if s != [] {
      assert !HasCache(s[1..], name) by {
        forall i | 0 <= i < |s[1..]| ensures s[1..][i].name != name {
          assert s[1..][i] == s[i + 1];
        }
      }
      EntriesNone(s[1..], name);
    }
  }
}
