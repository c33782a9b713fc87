/** The uid of a task, and the two-level store of manifests and blobs (bin/cargo/tasks.go). */
module TaskCache {
  import opened HashEncoding
  import Text

  datatype Input = Input(path: string, content: string)

  datatype Output = Output(name: string, tree: bool, executable: bool)

  /** A task together with everything its uid covers: `tool` is the digest of the cargo binary, and an
      input carries the content its path has during the run. */
  datatype Task = Task(tool: string, key: string, kind: string, signature: seq<string>,
                       deps: seq<Task>, inputs: seq<Input>, outputs: seq<Output>)

  /** What an action leaves at its outputs, by logical name. */
  datatype File = Regular(content: string, executable: bool) | Symlink(target: string)

  type Tree = map<string, File>

  datatype Entry = Blob(cas: string, executable: bool) | Link(target: string)

  type Manifest = map<string, Entry>

  datatype Shape = Shape(tool: string, key: string, kind: string, signature: seq<string>,
                         inputs: seq<Input>, outputs: seq<Output>)

  /** `hash` is SHA-256 with its printing, `act` what an action produces from its own description and the
      outputs of its dependencies, and `universe` the tasks of every run that ever uses the store. */
  datatype World = World(hash: string -> string, act: (Shape, seq<Tree>) -> Tree, universe: set<Task>)

  // ---- uids ----

  predicate PathLess(a: Input, b: Input) { Text.Compare(a.path, b.path) < 0 }

  function InsertInput(x: Input, sorted: seq<Input>): seq<Input> {
    if sorted == [] || !PathLess(sorted[0], x) then [x] + sorted
    else [sorted[0]] + InsertInput(x, sorted[1..])
  }

  /** `sort.Strings` on the input paths. */
  function SortInputs(inputs: seq<Input>): seq<Input> {
    if inputs == [] then [] else InsertInput(inputs[0], SortInputs(inputs[1..]))
  }

  function InputFields(w: World, inputs: seq<Input>): seq<string> {
    if inputs == [] then []
    else InputFields(w, inputs[..|inputs| - 1]) + [inputs[|inputs| - 1].path, w.hash(inputs[|inputs| - 1].content)]
  }

  function Flags(o: Output): string {
    (if o.tree then "true" else "false") + ":" + (if o.executable then "true" else "false")
  }

  function OutputFields(outputs: seq<Output>): seq<string> {
    if outputs == [] then []
    else OutputFields(outputs[..|outputs| - 1]) + [outputs[|outputs| - 1].name, Flags(outputs[|outputs| - 1])]
  }

  const CACHE_VERSION := "cargo-cas-v2"

  /** The flat list of strings that `taskUID` writes. */
  function Fields(w: World, t: Task): seq<string>
    decreases t, 1
  {
    [CACHE_VERSION, t.tool, t.key, t.kind] + t.signature + Uids(w, t.deps)
    + InputFields(w, SortInputs(t.inputs)) + OutputFields(t.outputs)
  }

  function Uid(w: World, t: Task): string
    decreases t, 2
  {
    w.hash(Encode(Fields(w, t)))
  }

  function Uids(w: World, ts: seq<Task>): (uids: seq<string>)
    ensures |uids| == |ts|
    decreases ts, 0
  {
    if ts == [] then [] else [Uid(w, ts[0])] + Uids(w, ts[1..])
  }

  function ShapeOf(t: Task): Shape {
    Shape(t.tool, t.key, t.kind, t.signature, SortInputs(t.inputs), t.outputs)
  }

  // ---- What a task produces ----

  function Outputs(w: World, t: Task): Tree
    decreases t, 1
  {
    w.act(ShapeOf(t), OutputsOfAll(w, t.deps))
  }

  function OutputsOfAll(w: World, ts: seq<Task>): (trees: seq<Tree>)
    ensures |trees| == |ts|
    decreases ts, 0
  {
    if ts == [] then [] else [Outputs(w, ts[0])] + OutputsOfAll(w, ts[1..])
  }

  function EntryOf(w: World, f: File): Entry {
    match f
    case Regular(content, executable) => Blob(w.hash(content), executable)
    case Symlink(target) => Link(target)
  }

  function ManifestOf(w: World, tree: Tree): Manifest {
    map n | n in tree :: EntryOf(w, tree[n])
  }

  /** The manifest of a task on a machine that never had a cache. */
  function CleanManifest(w: World, t: Task): Manifest {
    ManifestOf(w, Outputs(w, t))
  }

  ghost predicate Injective(hash: string -> string) { forall a, b :: hash(a) == hash(b) ==> a == b }

  /** How many entries the sections have that follow each other in the flat list. */
  predicate SameCounts(t: Task, u: Task) {
    |t.signature| == |u.signature| && |t.deps| == |u.deps| && |t.inputs| == |u.inputs| && |t.outputs| == |u.outputs|
  }

  /** The assumptions under which the cache is used: the hash is collision-free, dependencies belong to
      the universe, and lists of fields that are equal are cut into sections in the same way. */
  ghost predicate Sound(w: World) {
    && Injective(w.hash)
    && (forall t, d :: t in w.universe && d in t.deps ==> d in w.universe)
    && (forall t, u {:trigger SameCounts(t, u)} :: t in w.universe && u in w.universe && Fields(w, t) == Fields(w, u) ==> SameCounts(t, u))
  }

  // ---- What a uid covers ----

  ghost predicate InOrder(s: seq<Input>) { forall i, j :: 0 <= i < j < |s| ==> Text.Compare(s[i].path, s[j].path) <= 0 }

  lemma InOrderCons(x: Input, s: seq<Input>)
    requires InOrder(s) && forall y :: y in s ==> Text.Compare(x.path, y.path) <= 0
    ensures InOrder([x] + s)
  {
  }

  lemma FirstIsLeast(x: Input, s: seq<Input>)
    requires InOrder(s) && s != [] && Text.Compare(x.path, s[0].path) <= 0
    ensures forall y :: y in s ==> Text.Compare(x.path, y.path) <= 0
  {
    forall y | y in s ensures Text.Compare(x.path, y.path) <= 0 {
      var j :| 0 <= j < |s| && s[j] == y;
      Text.CompareAntisymmetric(y.path, y.path);
      assert Text.Compare(s[0].path, y.path) <= 0;
      Text.CompareTransitive(x.path, s[0].path, y.path);
    }
  }

  lemma {:induction false} InsertKeeps(x: Input, s: seq<Input>)
    ensures multiset(InsertInput(x, s)) == multiset(s) + multiset{x} && |InsertInput(x, s)| == |s| + 1
    ensures forall y :: y in InsertInput(x, s) ==> y in s || y == x
  {
    hide PathLess;
    if s != [] {
      InsertKeeps(x, s[1..]);
      assert s == [s[0]] + s[1..];
    }
  }

  lemma {:induction false} InsertSorts(x: Input, s: seq<Input>)
    requires InOrder(s)
    ensures InOrder(InsertInput(x, s))
  {
    hide InOrder;
    if s == [] {
      InOrderOne(x);
    } else {
      Text.CompareAntisymmetric(s[0].path, x.path);
      if PathLess(s[0], x) {
        InOrderTail(s);
        InsertSorts(x, s[1..]);
        InsertKeeps(x, s[1..]);
        InOrderCons(s[0], InsertInput(x, s[1..]));
      } else {
        FirstIsLeast(x, s);
        InOrderCons(x, s);
      }
    }
  }

  lemma InOrderOne(x: Input)
    ensures InOrder([x] + [])
  {
  }

  lemma InOrderTail(s: seq<Input>)
    requires InOrder(s) && s != []
    ensures InOrder(s[1..]) && forall y :: y in s[1..] ==> Text.Compare(s[0].path, y.path) <= 0
  {
    forall y | y in s[1..] ensures Text.Compare(s[0].path, y.path) <= 0 {
      var j :| 0 <= j < |s| - 1 && s[1..][j] == y;
      assert y == s[j + 1];
    }
  }

  /** The paths are hashed in order, each as often as it is listed. */
  lemma {:induction false} SortInputsSorts(inputs: seq<Input>)
    ensures var r := SortInputs(inputs); |r| == |inputs| && multiset(r) == multiset(inputs) && InOrder(r)
  {
    if inputs != [] {
      SortInputsSorts(inputs[1..]);
      InsertSorts(inputs[0], SortInputs(inputs[1..]));
      InsertKeeps(inputs[0], SortInputs(inputs[1..]));
      assert SortInputs(inputs) == InsertInput(inputs[0], SortInputs(inputs[1..]));
      hide InsertInput, SortInputs, InOrder;
      assert inputs == [inputs[0]] + inputs[1..];
    }
  }

  lemma {:induction false} InputFieldsCount(w: World, inputs: seq<Input>)
    ensures |InputFields(w, inputs)| == 2 * |inputs|
  {
    if inputs != [] {
      InputFieldsCount(w, inputs[..|inputs| - 1]);
    }
  }

  lemma {:induction false} OutputFieldsCount(outputs: seq<Output>)
    ensures |OutputFields(outputs)| == 2 * |outputs|
  {
    if outputs != [] {
      OutputFieldsCount(outputs[..|outputs| - 1]);
    }
  }

  lemma LastTwo<T>(a: seq<T>, b: seq<T>, x: T, y: T, x': T, y': T)
    requires |a| == |b| && a + [x, y] == b + [x', y']
    ensures a == b && x == x' && y == y'
  {
    var l, r := a + [x, y], b + [x', y'];
    assert a == l[..|a|] && b == r[..|b|];
    assert l[|a|] == x && l[|a| + 1] == y && r[|b|] == x' && r[|b| + 1] == y';
  }

  lemma {:induction false} InputFieldsInjective(w: World, a: seq<Input>, b: seq<Input>)
    requires Injective(w.hash) && |a| == |b| && InputFields(w, a) == InputFields(w, b)
    ensures a == b
  {
    if a != [] {
      var n := |a| - 1;
      var x, y := a[n], b[n];
      InputFieldsCount(w, a[..n]);
      InputFieldsCount(w, b[..n]);
      LastTwo(InputFields(w, a[..n]), InputFields(w, b[..n]), x.path, w.hash(x.content), y.path, w.hash(y.content));
      InputFieldsInjective(w, a[..n], b[..n]);
      assert x == y;
      assert a == a[..n] + [x] && b == b[..n] + [y];
    }
  }

  lemma FlagsInjective(a: Output, b: Output)
    requires Flags(a) == Flags(b)
    ensures a.tree == b.tree && a.executable == b.executable
  {
    assert Flags(a)[0] == if a.tree then 't' else 'f';
    assert Flags(b)[0] == if b.tree then 't' else 'f';
    assert |Flags(a)| == (if a.tree then 4 else 5) + 1 + (if a.executable then 4 else 5);
    assert |Flags(b)| == (if b.tree then 4 else 5) + 1 + (if b.executable then 4 else 5);
  }

  lemma {:induction false} OutputFieldsInjective(a: seq<Output>, b: seq<Output>)
    requires |a| == |b| && OutputFields(a) == OutputFields(b)
    ensures a == b
  {
    hide Flags;
    if a != [] {
      var n := |a| - 1;
      var x, y := a[n], b[n];
      OutputFieldsCount(a[..n]);
      OutputFieldsCount(b[..n]);
      LastTwo(OutputFields(a[..n]), OutputFields(b[..n]), x.name, Flags(x), y.name, Flags(y));
      FlagsInjective(x, y);
      OutputFieldsInjective(a[..n], b[..n]);
      assert x == y;
      assert a == a[..n] + [x] && b == b[..n] + [y];
    }
  }

  lemma CutAlike<T>(a: seq<T>, b: seq<T>, a': seq<T>, b': seq<T>)
    requires |a| == |a'| && a + b == a' + b'
    ensures a == a' && b == b'
  {
    assert a == (a + b)[..|a|] && a' == (a' + b')[..|a'|];
    assert b == (a + b)[|a|..] && b' == (a' + b')[|a'|..];
  }

  /** The field list leaves nothing out: with sections of the same sizes, equal lists come from equal parts,
      the content of every input included. */
  lemma FieldsDetermine(w: World, t: Task, u: Task)
    requires Injective(w.hash) && SameCounts(t, u) && Fields(w, t) == Fields(w, u)
    ensures t.tool == u.tool && t.key == u.key && t.kind == u.kind && t.signature == u.signature && t.outputs == u.outputs
    ensures SortInputs(t.inputs) == SortInputs(u.inputs) && multiset(t.inputs) == multiset(u.inputs)
    ensures Uids(w, t.deps) == Uids(w, u.deps)
  {
    hide Uid, SortInputs, InputFields, OutputFields;
    SortInputsSorts(t.inputs);
    SortInputsSorts(u.inputs);
    var a, b := SortInputs(t.inputs), SortInputs(u.inputs);
    InputFieldsCount(w, a);
    InputFieldsCount(w, b);
    var head, head' := [CACHE_VERSION, t.tool, t.key, t.kind], [CACHE_VERSION, u.tool, u.key, u.kind];
    var uids, uids' := Uids(w, t.deps), Uids(w, u.deps);
    CutAlike(head + t.signature + uids + InputFields(w, a), OutputFields(t.outputs),
             head' + u.signature + uids' + InputFields(w, b), OutputFields(u.outputs));
    CutAlike(head + t.signature + uids, InputFields(w, a), head' + u.signature + uids', InputFields(w, b));
    CutAlike(head + t.signature, uids, head' + u.signature, uids');
    CutAlike(head, t.signature, head', u.signature);
    assert head[1] == head'[1] && head[2] == head'[2] && head[3] == head'[3];
    InputFieldsInjective(w, a, b);
    OutputFieldsInjective(t.outputs, u.outputs);
  }

  /** Sections of other sizes can make the same list: an output hashes like two entries of the signature. */
  lemma SectionsRunTogether(w: World, o: Output)
    ensures var t := Task("", "", "", [o.name, Flags(o)], [], [], []); var u := Task("", "", "", [], [], [], [o]);
      Uid(w, t) == Uid(w, u) && t != u && !SameCounts(t, u)
  {
    hide Encode, Flags;
    var t, u := Task("", "", "", [o.name, Flags(o)], [], [], []), Task("", "", "", [], [], [], [o]);
    assert [o][..0] == [] && OutputFields([o]) == [] + [o.name, Flags(o)];
    assert InputFields(w, SortInputs([])) == [] && OutputFields([]) == [] && Uids(w, []) == [];
    assert Fields(w, t) == [CACHE_VERSION, "", "", ""] + [o.name, Flags(o)];
    assert Fields(w, u) == [CACHE_VERSION, "", "", ""] + [o.name, Flags(o)];
  }

  /** The same work: the same description, the same inputs with the same contents, and dependencies that are
      the same work, in order. */
  ghost predicate SameWork(t: Task, u: Task)
    decreases t
  {
    && t.tool == u.tool && t.key == u.key && t.kind == u.kind && t.signature == u.signature && t.outputs == u.outputs
    && SortInputs(t.inputs) == SortInputs(u.inputs)
    && |t.deps| == |u.deps| && forall i :: 0 <= i < |t.deps| ==> SameWork(t.deps[i], u.deps[i])
  }

  lemma {:induction false} UidsAt(w: World, ts: seq<Task>, i: nat)
    requires i < |ts|
    ensures Uids(w, ts)[i] == Uid(w, ts[i])
    decreases i
  {
    hide Uid;
    if i > 0 {
      UidsAt(w, ts[1..], i - 1);
    }
  }

  /** Two tasks have the same uid exactly if they are the same work all the way down. */
  lemma {:induction false} UidExactly(w: World, t: Task, u: Task)
    requires Sound(w) && t in w.universe && u in w.universe
    ensures Uid(w, t) == Uid(w, u) <==> SameWork(t, u)
    decreases t
  {
    hide Fields, SortInputs, Encode;
    forall i | 0 <= i < |t.deps| && i < |u.deps| ensures Uids(w, t.deps)[i] == Uids(w, u.deps)[i] <==> SameWork(t.deps[i], u.deps[i]) {
      UidsAt(w, t.deps, i);
      UidsAt(w, u.deps, i);
      UidExactly(w, t.deps[i], u.deps[i]);
    }
    if Uid(w, t) == Uid(w, u) {
      EncodeInjective(Fields(w, t), Fields(w, u));
      FieldsDetermine(w, t, u);
    }
    if SameWork(t, u) {
      assert Uids(w, t.deps) == Uids(w, u.deps);
      SameParts(w, t, u);
    }
  }

  /** The sections of two tasks have the same sizes, and so have those of their dependencies, in order. */
  ghost predicate SameSizes(t: Task, u: Task)
    decreases t
  {
    SameCounts(t, u) && forall i :: 0 <= i < |t.deps| ==> SameSizes(t.deps[i], u.deps[i])
  }

  /** Of any tasks: they are the same work exactly if their uids and the sizes of their sections are the same. */
  lemma {:induction false} SameWorkExactly(w: World, t: Task, u: Task)
    requires Injective(w.hash)
    ensures SameWork(t, u) <==> Uid(w, t) == Uid(w, u) && SameSizes(t, u)
    decreases t
  {
    hide Fields, SortInputs, Encode, Injective;
    forall i | 0 <= i < |t.deps| && i < |u.deps|
      ensures SameWork(t.deps[i], u.deps[i]) <==> Uids(w, t.deps)[i] == Uids(w, u.deps)[i] && SameSizes(t.deps[i], u.deps[i])
    {
      UidsAt(w, t.deps, i);
      UidsAt(w, u.deps, i);
      SameWorkExactly(w, t.deps[i], u.deps[i]);
    }
    if Uid(w, t) == Uid(w, u) && SameSizes(t, u) {
      HashInjective(w, Encode(Fields(w, t)), Encode(Fields(w, u)));
      EncodeInjective(Fields(w, t), Fields(w, u));
      FieldsDetermine(w, t, u);
    }
    if SameWork(t, u) {
      assert Uids(w, t.deps) == Uids(w, u.deps);
      SameParts(w, t, u);
      SortInputsSorts(t.inputs);
      SortInputsSorts(u.inputs);
    }
  }

  lemma HashInjective(w: World, a: string, b: string)
    requires Injective(w.hash) && w.hash(a) == w.hash(b)
    ensures a == b
  {
  }

  lemma SameParts(w: World, t: Task, u: Task)
    requires t.tool == u.tool && t.key == u.key && t.kind == u.kind && t.signature == u.signature && t.outputs == u.outputs
    requires SortInputs(t.inputs) == SortInputs(u.inputs) && Uids(w, t.deps) == Uids(w, u.deps)
    ensures Uid(w, t) == Uid(w, u)
  {
    hide Encode, SortInputs, InputFields, OutputFields, Uids;
  }

  /** Equal uids mean equal outputs, however deep the difference between the tasks might lie. */
  lemma {:induction false} SameUidSameOutputs(w: World, t: Task, u: Task)
    requires Sound(w) && t in w.universe && u in w.universe && Uid(w, t) == Uid(w, u)
    ensures Outputs(w, t) == Outputs(w, u)
    decreases t, 1
  {
    hide Fields, Encode, SortInputs;
    EncodeInjective(Fields(w, t), Fields(w, u));
    FieldsDetermine(w, t, u);
    SameUidsSameOutputs(w, t.deps, u.deps);
  }

  lemma {:induction false} SameUidsSameOutputs(w: World, ts: seq<Task>, us: seq<Task>)
    requires Sound(w) && Uids(w, ts) == Uids(w, us)
    requires (forall t :: t in ts ==> t in w.universe) && (forall u :: u in us ==> u in w.universe)
    ensures OutputsOfAll(w, ts) == OutputsOfAll(w, us)
    decreases ts, 0
  {
    assert |Uids(w, ts)| == |ts| && |Uids(w, us)| == |us|;
    if ts != [] {
      assert Uids(w, ts)[0] == Uid(w, ts[0]) && Uids(w, us)[0] == Uid(w, us[0]);
      assert Uids(w, ts)[1..] == Uids(w, ts[1..]) && Uids(w, us)[1..] == Uids(w, us[1..]);
      SameUidSameOutputs(w, ts[0], us[0]);
      SameUidsSameOutputs(w, ts[1..], us[1..]);
    }
  }

  // ---- The store ----

  datatype Store = Store(blobs: map<string, string>, uids: map<string, Manifest>)

  ghost predicate BlobsPresent(blobs: map<string, string>, m: Manifest) {
    forall n :: n in m && m[n].Blob? ==> m[n].cas in blobs
  }

  /** `loadManifest` accepts a manifest whose blobs are all there. */
  ghost predicate Loadable(store: Store, uid: string) {
    uid in store.uids && BlobsPresent(store.blobs, store.uids[uid])
  }

  ghost predicate HashedBlobs(w: World, blobs: map<string, string>) {
    forall h :: h in blobs ==> h == w.hash(blobs[h])
  }

  /** What a task reads through the manifest of a dependency. */
  ghost function ReadTree(blobs: map<string, string>, m: Manifest): Tree
    requires BlobsPresent(blobs, m)
  {
    map n | n in m :: match m[n]
                      case Blob(cas, executable) => Regular(blobs[cas], executable)
                      case Link(target) => Symlink(target)
  }

  /** Reading a stored manifest gives back the files it was made from. */
  lemma ReadBack(w: World, blobs: map<string, string>, tree: Tree)
    requires Sound(w) && HashedBlobs(w, blobs) && BlobsPresent(blobs, ManifestOf(w, tree))
    ensures ReadTree(blobs, ManifestOf(w, tree)) == tree
  {
    forall n | n in tree ensures ReadTree(blobs, ManifestOf(w, tree))[n] == tree[n] {
      assert n in ManifestOf(w, tree) && ManifestOf(w, tree)[n] == EntryOf(w, tree[n]);
    }
  }
}
