/** Grouping files by a key, as the first loop of `spit` does with the extension: the
    keys in first-seen order, the files of each key in their order, the loop that builds
    the grouping object, and the fact that the groups partition the files. */
module Grouping {
  import opened Files

  /** The keys of the files in the order each is first met, each once. With the extension
      as key this is the order in which the plugin's grouping object enumerates its keys. */
  function KeysInOrder(fs: seq<FontFile>, key: FontFile -> string): (ks: seq<string>)
    ensures forall i, j :: 0 <= i < j < |ks| ==> ks[i] != ks[j]
    decreases |fs|
  {
    if fs == [] then []
    else
      var ks0 := KeysInOrder(fs[..|fs| - 1], key);
      var e := key(fs[|fs| - 1]);
      if e in ks0 then ks0 else ks0 + [e]
  }

  /** A key is listed exactly when some file carries it. */
  lemma {:induction false} KeysInOrderComplete(fs: seq<FontFile>, key: FontFile -> string, e: string)
    ensures e in KeysInOrder(fs, key) <==> exists k :: 0 <= k < |fs| && key(fs[k]) == e
    decreases |fs|
  {
    if fs != [] {
      var init := fs[..|fs| - 1];
      KeysInOrderComplete(init, key, e);
      assert forall k :: 0 <= k < |init| ==> init[k] == fs[k];
      if e in KeysInOrder(fs, key) && e !in KeysInOrder(init, key) {
        assert key(fs[|fs| - 1]) == e;
      }
    }
  }

  /** The files whose key is `e`, in their order. */
  function FilesWithKey(fs: seq<FontFile>, key: FontFile -> string, e: string): (g: seq<FontFile>)
    ensures forall f :: f in g <==> f in fs && key(f) == e
    ensures |g| <= |fs|
    decreases |fs|
  {
    if fs == [] then []
    else
      var init := fs[..|fs| - 1];
      var last := fs[|fs| - 1];
      assert fs == init + [last];
      FilesWithKey(init, key, e) + (if key(last) == e then [last] else [])
  }

  lemma KeysInOrderStep(fs: seq<FontFile>, key: FontFile -> string, i: nat)
    requires i < |fs|
    ensures KeysInOrder(fs[..i + 1], key) ==
      if key(fs[i]) in KeysInOrder(fs[..i], key) then KeysInOrder(fs[..i], key)
      else KeysInOrder(fs[..i], key) + [key(fs[i])]
  {
    assert fs[..i + 1][..i] == fs[..i];
  }

  lemma FilesWithKeyStep(fs: seq<FontFile>, key: FontFile -> string, e: string, i: nat)
    requires i < |fs|
    ensures FilesWithKey(fs[..i + 1], key, e) ==
      FilesWithKey(fs[..i], key, e) + (if key(fs[i]) == e then [fs[i]] else [])
  {
    assert fs[..i + 1][..i] == fs[..i];
  }

  /** A key no file carries has an empty group. */
  lemma FilesWithUnseenKey(fs: seq<FontFile>, key: FontFile -> string, e: string)
    requires e !in KeysInOrder(fs, key)
    ensures FilesWithKey(fs, key, e) == []
  {
    KeysInOrderComplete(fs, key, e);
  }

  /** What the first loop of `spit` keeps after `i` files: the keys in first-seen order,
      and for each key the files carrying it. */
  ghost predicate Bucketed(fs: seq<FontFile>, key: FontFile -> string, i: nat, order: seq<string>, sorted: map<string, seq<FontFile>>)
    requires i <= |fs|
  {
    && order == KeysInOrder(fs[..i], key)
    && (forall e :: e in sorted <==> e in order)
    && (forall e :: e in sorted ==> sorted[e] == FilesWithKey(fs[..i], key, e))
  }

  /** Appending a file to the existing bucket of its key keeps every bucket exact. */
  lemma SeenContents(fs: seq<FontFile>, key: FontFile -> string, i: nat, sorted: map<string, seq<FontFile>>)
    requires i < |fs| && key(fs[i]) in sorted
    requires forall e :: e in sorted ==> sorted[e] == FilesWithKey(fs[..i], key, e)
    ensures var next := sorted[key(fs[i]) := sorted[key(fs[i])] + [fs[i]]];
      forall e :: e in next ==> next[e] == FilesWithKey(fs[..i + 1], key, e)
  {
    var next := sorted[key(fs[i]) := sorted[key(fs[i])] + [fs[i]]];
    forall e | e in next
      ensures next[e] == FilesWithKey(fs[..i + 1], key, e)
    {
      FilesWithKeyStep(fs, key, e, i);
    }
  }

  /** Opening a bucket holding just the file, for a key no earlier file has, keeps every
      bucket exact. */
  lemma UnseenContents(fs: seq<FontFile>, key: FontFile -> string, i: nat, sorted: map<string, seq<FontFile>>)
    requires i < |fs| && key(fs[i]) !in sorted
    requires FilesWithKey(fs[..i], key, key(fs[i])) == []
    requires forall e :: e in sorted ==> sorted[e] == FilesWithKey(fs[..i], key, e)
    ensures var next := sorted[key(fs[i]) := [fs[i]]];
      forall e :: e in next ==> next[e] == FilesWithKey(fs[..i + 1], key, e)
  {
    var next := sorted[key(fs[i]) := [fs[i]]];
    forall e | e in next
      ensures next[e] == FilesWithKey(fs[..i + 1], key, e)
    {
      FilesWithKeyStep(fs, key, e, i);
    }
  }

  /** A turn of the first loop for a file whose key already has a bucket. */
  lemma BucketSeenStep(fs: seq<FontFile>, key: FontFile -> string, i: nat, order: seq<string>, sorted: map<string, seq<FontFile>>)
    requires i < |fs| && Bucketed(fs, key, i, order, sorted) && key(fs[i]) in sorted
    ensures Bucketed(fs, key, i + 1, order, sorted[key(fs[i]) := sorted[key(fs[i])] + [fs[i]]])
  {
    KeysInOrderStep(fs, key, i);
    SeenContents(fs, key, i, sorted);
  }

  /** A turn of the first loop for the first file with its key: a bucket is opened and
      the key listed. */
  lemma BucketUnseenStep(fs: seq<FontFile>, key: FontFile -> string, i: nat, order: seq<string>, sorted: map<string, seq<FontFile>>)
    requires i < |fs| && Bucketed(fs, key, i, order, sorted) && key(fs[i]) !in sorted
    ensures Bucketed(fs, key, i + 1, order + [key(fs[i])], sorted[key(fs[i]) := [fs[i]]])
  {
    KeysInOrderStep(fs, key, i);
    FilesWithUnseenKey(fs[..i], key, key(fs[i]));
    UnseenContents(fs, key, i, sorted);
  }

  /** The first loop of `spit`: the grouping object, built file by file, and the order
      in which its keys were added. */
  method Bucket(fs: seq<FontFile>, key: FontFile -> string) returns (order: seq<string>, sorted: map<string, seq<FontFile>>)
    ensures order == KeysInOrder(fs, key)
    ensures forall e :: e in sorted <==> e in order
    ensures forall e :: e in sorted ==> sorted[e] == FilesWithKey(fs, key, e)
  {
    sorted := map[];
    order := [];
    var i := 0;
    while i < |fs|
      invariant i <= |fs|
      invariant Bucketed(fs, key, i, order, sorted)
    {
      var file := fs[i];
      var e := key(file);
      if e !in sorted {
        BucketUnseenStep(fs, key, i, order, sorted);
        sorted := sorted[e := [file]];
        order := order + [e];
      } else {
        BucketSeenStep(fs, key, i, order, sorted);
        sorted := sorted[e := sorted[e] + [file]];
      }
      i := i + 1;
    }
    assert fs[..i] == fs;
  }

  /** The files of the groups, one group after another in `spit`'s order. */
  function Regroup(fs: seq<FontFile>, key: FontFile -> string, ks: seq<string>): seq<FontFile>
    decreases |ks|
  {
    if ks == [] then [] else Regroup(fs, key, ks[..|ks| - 1]) + FilesWithKey(fs, key, ks[|ks| - 1])
  }

  lemma FilesWithKeyAppend(fs: seq<FontFile>, f: FontFile, key: FontFile -> string, e: string)
    ensures FilesWithKey(fs + [f], key, e) == FilesWithKey(fs, key, e) + (if key(f) == e then [f] else [])
  {
    assert (fs + [f])[..|fs|] == fs;
  }

  lemma RegroupSnoc(fs: seq<FontFile>, key: FontFile -> string, ks: seq<string>, e: string)
    ensures Regroup(fs, key, ks + [e]) == Regroup(fs, key, ks) + FilesWithKey(fs, key, e)
  {
    assert (ks + [e])[..|ks|] == ks;
  }

  /** One more key: the regrouping with `f` added gains `f` exactly when the new key is
      its key and was not listed before. */
  lemma RegroupAppendStep(fs: seq<FontFile>, f: FontFile, key: FontFile -> string, init: seq<string>, e: string)
    requires key(f) == e ==> key(f) !in init
    requires multiset(Regroup(fs + [f], key, init))
          == multiset(Regroup(fs, key, init)) + (if key(f) in init then multiset{f} else multiset{})
    ensures multiset(Regroup(fs + [f], key, init + [e]))
         == multiset(Regroup(fs, key, init + [e])) + (if key(f) in init + [e] then multiset{f} else multiset{})
  {
    RegroupSnoc(fs + [f], key, init, e);
    RegroupSnoc(fs, key, init, e);
    FilesWithKeyAppend(fs, f, key, e);
  }

  lemma {:induction false} RegroupAppend(fs: seq<FontFile>, f: FontFile, key: FontFile -> string, ks: seq<string>)
    requires forall i, j :: 0 <= i < j < |ks| ==> ks[i] != ks[j]
    ensures multiset(Regroup(fs + [f], key, ks))
         == multiset(Regroup(fs, key, ks)) + (if key(f) in ks then multiset{f} else multiset{})
    decreases |ks|
  {
    if ks != [] {
      var init := ks[..|ks| - 1];
      var e := ks[|ks| - 1];
      assert ks == init + [e];
      RegroupAppend(fs, f, key, init);
      assert key(f) == e ==> key(f) !in init;
      RegroupAppendStep(fs, f, key, init, e);
    }
  }

  /** Adding a file whose key is already listed adds it to that key's group. */
  lemma PartitionSeenStep(init: seq<FontFile>, f: FontFile, key: FontFile -> string)
    requires multiset(Regroup(init, key, KeysInOrder(init, key))) == multiset(init)
    requires key(f) in KeysInOrder(init, key)
    ensures multiset(Regroup(init + [f], key, KeysInOrder(init + [f], key))) == multiset(init + [f])
  {
    var fs := init + [f];
    assert fs[..|fs| - 1] == init;
    assert KeysInOrder(fs, key) == KeysInOrder(init, key);
    RegroupAppend(init, f, key, KeysInOrder(init, key));
  }

  /** The first file with its key adds that key at the end of the list. */
  lemma KeysAfterUnseen(init: seq<FontFile>, f: FontFile, key: FontFile -> string)
    requires key(f) !in KeysInOrder(init, key)
    ensures KeysInOrder(init + [f], key) == KeysInOrder(init, key) + [key(f)]
  {
    var fs := init + [f];
    assert fs[..|fs| - 1] == init;
  }

  /** The first file with its key is alone in that key's group. */
  lemma GroupOfUnseen(init: seq<FontFile>, f: FontFile, key: FontFile -> string)
    requires key(f) !in KeysInOrder(init, key)
    ensures FilesWithKey(init + [f], key, key(f)) == [f]
  {
    FilesWithUnseenKey(init, key, key(f));
    FilesWithKeyAppend(init, f, key, key(f));
  }

  /** Adding the first file with its key adds a new group holding just that file. */
  lemma PartitionUnseenStep(init: seq<FontFile>, f: FontFile, key: FontFile -> string)
    requires multiset(Regroup(init, key, KeysInOrder(init, key))) == multiset(init)
    requires key(f) !in KeysInOrder(init, key)
    ensures multiset(Regroup(init + [f], key, KeysInOrder(init + [f], key))) == multiset(init + [f])
  {
    var ks := KeysInOrder(init, key);
    KeysAfterUnseen(init, f, key);
    RegroupAppend(init, f, key, ks);
    GroupOfUnseen(init, f, key);
    RegroupSnoc(init + [f], key, ks, key(f));
  }

  /** The groups partition the files: every file lands in exactly one group (the one of
      its own key), as often as it was buffered, and nothing else does. */
  lemma {:induction false} GroupsPartitionFiles(fs: seq<FontFile>, key: FontFile -> string)
    ensures multiset(Regroup(fs, key, KeysInOrder(fs, key))) == multiset(fs)
    decreases |fs|
  {
    if fs != [] {
      var init := fs[..|fs| - 1];
      var f := fs[|fs| - 1];
      assert fs == init + [f];
      GroupsPartitionFiles(init, key);
      if key(f) in KeysInOrder(init, key) {
        PartitionSeenStep(init, f, key);
      } else {
        PartitionUnseenStep(init, f, key);
      }
    }
  }
}
