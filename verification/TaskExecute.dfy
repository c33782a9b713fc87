/** `execute` and the store routines of bin/cargo/tasks.go in their own form: a worker that holds the
    lock of its uid and changes the store in place. Files are values, and one call is undisturbed;
    TaskProtocol.dfy is about interleavings. */
module TaskExecute {
  import opened HashEncoding
  import opened Results
  import opened TaskCache

  /** `taskUID`: the fields are written one after another. */
  method TaskUid(w: World, t: Task, depUids: seq<string>) returns (uid: string)
    requires depUids == Uids(w, t.deps)
    ensures uid == Uid(w, t)
  {
    var head := [CACHE_VERSION, t.tool, t.key, t.kind];
    var out := WriteAll("", [], head);
    assert [] + head == head;
    out := WriteAll(out, head, t.signature);
    out := WriteAll(out, head + t.signature, depUids);
    out := WriteInputs(w, out, head + t.signature + depUids, SortInputs(t.inputs));
    out := WriteOutputs(out, head + t.signature + depUids + InputFields(w, SortInputs(t.inputs)), t.outputs);
    uid := w.hash(out);
  }

  method WriteInputs(w: World, out: string, ghost written: seq<string>, inputs: seq<Input>) returns (out': string)
    requires out == Encode(written)
    ensures out' == Encode(written + InputFields(w, inputs))
  {
    hide Encode, Field;
    out' := out;
    assert written + InputFields(w, inputs[..0]) == written;
    for i := 0 to |inputs|
      invariant out' == Encode(written + InputFields(w, inputs[..i]))
    {
      var path, digest := inputs[i].path, w.hash(inputs[i].content);
      assert inputs[..i + 1][..i] == inputs[..i];
      TwoFields(written + InputFields(w, inputs[..i]), path, digest);
      assert written + InputFields(w, inputs[..i + 1]) == written + InputFields(w, inputs[..i]) + [path, digest];
      out' := out' + Field(path) + Field(digest);
    }
    assert inputs[..|inputs|] == inputs;
  }

  method WriteOutputs(out: string, ghost written: seq<string>, outputs: seq<Output>) returns (out': string)
    requires out == Encode(written)
    ensures out' == Encode(written + OutputFields(outputs))
  {
    hide Encode, Field, Flags;
    out' := out;
    assert written + OutputFields(outputs[..0]) == written;
    for i := 0 to |outputs|
      invariant out' == Encode(written + OutputFields(outputs[..i]))
    {
      var name, flags := outputs[i].name, Flags(outputs[i]);
      assert outputs[..i + 1][..i] == outputs[..i];
      TwoFields(written + OutputFields(outputs[..i]), name, flags);
      assert written + OutputFields(outputs[..i + 1]) == written + OutputFields(outputs[..i]) + [name, flags];
      out' := out' + Field(name) + Field(flags);
    }
    assert outputs[..|outputs|] == outputs;
  }

  method WriteAll(out: string, ghost written: seq<string>, values: seq<string>) returns (out': string)
    requires out == Encode(written)
    ensures out' == Encode(written + values)
  {
    hide Field;
    out' := out;
    assert written + values[..0] == written;
    for i := 0 to |values|
      invariant out' == Encode(written + values[..i])
    {
      out' := out' + Field(values[i]);
      EncodeLast(written + values[..i], values[i]);
      assert written + values[..i + 1] == written + values[..i] + [values[i]];
    }
    assert values[..|values|] == values;
  }

  lemma TwoFields(written: seq<string>, a: string, b: string)
    ensures Encode(written + [a, b]) == Encode(written) + Field(a) + Field(b)
  {
    hide Field, Encode;
    EncodeLast(written, a);
    EncodeLast(written + [a], b);
    assert written + [a, b] == written + [a] + [b];
  }

  class Executor {
    var blobs: map<string, string>
    var uids: map<string, Manifest>

    constructor ()
      ensures blobs == map[] && uids == map[]
    {
      blobs, uids := map[], map[];
    }

    ghost predicate Valid(w: World)
      reads this
    {
      && HashedBlobs(w, blobs)
      && forall t :: t in w.universe && Uid(w, t) in uids ==> uids[Uid(w, t)] == CleanManifest(w, t)
    }

    /** Blobs are only added. */
    ghost predicate Keeps(before: map<string, string>)
      reads this
    {
      forall h :: h in before ==> h in blobs && blobs[h] == before[h]
    }

    method StoreFile(w: World, f: File) returns (entry: Entry)
      requires Sound(w) && HashedBlobs(w, blobs)
      modifies this`blobs
      ensures HashedBlobs(w, blobs) && Keeps(old(blobs))
      ensures entry == EntryOf(w, f) && (entry.Blob? ==> entry.cas in blobs)
    {
      match f
      case Symlink(target) =>
        entry := Link(target);
      case Regular(content, executable) =>
        var value := w.hash(content);
        if value !in blobs {
          blobs := blobs[value := content];
        }
        entry := Blob(value, executable);
    }

    method StoreOutputs(w: World, tree: Tree) returns (manifest: Manifest)
      requires Sound(w) && HashedBlobs(w, blobs)
      modifies this`blobs
      ensures HashedBlobs(w, blobs) && Keeps(old(blobs))
      ensures manifest == ManifestOf(w, tree) && BlobsPresent(blobs, manifest)
    {
      manifest := map[];
      var todo := tree.Keys;
      while todo != {}
        invariant HashedBlobs(w, blobs) && Keeps(old(blobs))
        invariant todo <= tree.Keys && manifest.Keys == tree.Keys - todo
        invariant forall n :: n in manifest ==> manifest[n] == EntryOf(w, tree[n])
        invariant BlobsPresent(blobs, manifest)
        decreases todo
      {
        var n :| n in todo;
        var entry := StoreFile(w, tree[n]);
        manifest := manifest[n := entry];
        todo := todo - {n};
      }
    }

    method LoadManifest(uid: string) returns (manifest: Option<Manifest>)
      ensures manifest.Some? <==> Loadable(Store(blobs, uids), uid)
      ensures manifest.Some? ==> manifest.value == uids[uid]
    {
      if uid !in uids {
        return None;
      }
      var todo := uids[uid].Keys;
      while todo != {}
        invariant todo <= uids[uid].Keys
        invariant forall n :: n in uids[uid] && n !in todo && uids[uid][n].Blob? ==> uids[uid][n].cas in blobs
        decreases todo
      {
        var n :| n in todo;
        if uids[uid][n].Blob? && uids[uid][n].cas !in blobs {
          return None;
        }
        todo := todo - {n};
      }
      return Some(uids[uid]);
    }

    /** `preloaded` is what the scan at the start of the run found; whether the action throws, or the storing
        of what it left, is up to the environment. A manifest that comes out is the clean one and loads from now on; a failure publishes
        nothing; `fromCache` (the `fresh` flag) tells whether the cache answered, and then nothing changes. */
    method Execute(w: World, t: Task, deps: seq<Manifest>, preloaded: Option<Manifest>, actionThrows: bool, storeThrows: bool)
      returns (result: Option<Manifest>, fromCache: bool)
      requires Sound(w) && t in w.universe && Valid(w)
      requires |deps| == |t.deps|
      requires forall i :: 0 <= i < |deps| ==> deps[i] == CleanManifest(w, t.deps[i]) && BlobsPresent(blobs, deps[i])
      requires preloaded.Some? ==>
        preloaded.value == CleanManifest(w, t) && Loadable(Store(blobs, uids), Uid(w, t))
      modifies this
      ensures Valid(w) && Keeps(old(blobs))
      ensures result.Some? ==> result.value == CleanManifest(w, t) && Loadable(Store(blobs, uids), Uid(w, t))
      ensures forall u :: u in old(uids) && u != Uid(w, t) ==> u in uids && uids[u] == old(uids)[u]
      ensures forall u :: u in uids && u != Uid(w, t) ==> u in old(uids)
      ensures result.None? ==> uids == old(uids)
      ensures result.None? <==> !fromCache && (actionThrows || storeThrows)
      ensures fromCache <==> Loadable(Store(old(blobs), old(uids)), Uid(w, t))
      ensures fromCache ==> result.Some? && blobs == old(blobs) && uids == old(uids)
    {
      hide Uid;
      if preloaded.Some? {
        return preloaded, true;
      }
      var uid := Uid(w, t);
      var manifest := LoadManifest(uid);
      if manifest.Some? {
        return manifest, true;
      }
      fromCache := false;
      if actionThrows {
        return None, false;
      }
      var trees := ReadAll(w, deps, t.deps);
      var tree := w.act(ShapeOf(t), trees);
      var stored := StoreOutputs(w, tree);
      if storeThrows {
        return None, false;
      }
      uids := uids[uid := stored];
      forall u | u in w.universe && Uid(w, u) in uids ensures uids[Uid(w, u)] == CleanManifest(w, u) {
        if Uid(w, u) == Uid(w, t) {
          SameUidSameOutputs(w, u, t);
        }
      }
      result := Some(stored);
    }

    method ReadAll(w: World, manifests: seq<Manifest>, ghost tasks: seq<Task>) returns (trees: seq<Tree>)
      requires Sound(w) && HashedBlobs(w, blobs) && |manifests| == |tasks|
      requires forall i :: 0 <= i < |tasks| ==>
        manifests[i] == CleanManifest(w, tasks[i]) && BlobsPresent(blobs, manifests[i])
      ensures trees == OutputsOfAll(w, tasks)
    {
      trees := [];
      assert tasks[..0] == [];
      for i := 0 to |manifests|
        invariant trees == OutputsOfAll(w, tasks[..i])
      {
        ReadBack(w, blobs, Outputs(w, tasks[i]));
        var tree := map n | n in manifests[i] :: match manifests[i][n]
                                                 case Blob(cas, executable) => Regular(blobs[cas], executable)
                                                 case Link(target) => Symlink(target);
        assert tree == ReadTree(blobs, manifests[i]);
        trees := trees + [tree];
        AllButLast(w, tasks[..i + 1]);
        assert tasks[..i + 1][..i] == tasks[..i];
      }
      assert tasks[..|tasks|] == tasks;
    }
  }

  lemma {:induction false} AllButLast(w: World, ts: seq<Task>)
    requires ts != []
    ensures OutputsOfAll(w, ts) == OutputsOfAll(w, ts[..|ts| - 1]) + [Outputs(w, ts[|ts| - 1])]
  {
    if |ts| > 1 {
      AllButLast(w, ts[1..]);
      assert ts[1..][..|ts| - 2] == ts[..|ts| - 1][1..];
    } else {
      assert ts[1..] == [] && ts[..0] == [];
    }
  }
}
