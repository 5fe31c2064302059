/** The incremental symbol index: a full scan, and a stream of file-change events each handled
    by delete-then-upsert, proved to agree once the events have caught up with the files. */
module SymbolIndex {

  import opened Collections

  // The components of a file's path below the workspace root; the last one is the file name.
  type Path = seq<string>
  type Content = string
  type Files = map<Path, Content>

  datatype Key = Key(file: Path, name: string, kind: string)

  /** A symbol record; detail stands for the columns outside the conflict key. */
  datatype Symbol = Symbol(file: Path, name: string, kind: string, detail: string)

  type Table = map<Key, Symbol>

  function KeyOf(s: Symbol): Key { Key(s.file, s.name, s.kind) }

  function Get(t: Table, k: Key): Option<Symbol> { if k in t then Some(t[k]) else None }

  // ---------------------------------------------------------------- which files count

  function Extension(name: string): string
  {
    if name == [] then [] else if name[|name| - 1] == '.' then "." else
    var e := Extension(name[..|name| - 1]);
    if e == [] then [] else e + [name[|name| - 1]]
  }

  const SUPPORTED: set<string> := {".go", ".rs", ".ts", ".tsx", ".py", ".dart"}

  predicate SkippedDir(name: string)
  {
    (name != [] && name[0] == '.') || name == "node_modules" || name == "vendor"
  }

  /** The scan visits a file, and the watcher reports it, when no directory on the way, the
      root included, is skipped and the extension is supported. */
  predicate Visible(root: string, p: Path)
  {
    && p != [] && !SkippedDir(root)
    && (forall i :: 0 <= i < |p| - 1 ==> !SkippedDir(p[i]))
    && Extension(p[|p| - 1]) in SUPPORTED
  }

  /** The extension is the last dot and what follows it, or nothing. */
  lemma {:induction false} ExtensionIs(stem: string, ext: string)
    requires '.' !in ext
    ensures Extension(stem + "." + ext) == "." + ext
    ensures Extension(ext) == ""
    decreases |ext|
  {
    var name := stem + "." + ext;
    if ext != "" {
      var n := |ext| - 1;
      assert name[..|name| - 1] == stem + "." + ext[..n] && name[|name| - 1] == ext[n];
      ExtensionIs(stem, ext[..n]);
      assert "." + ext == "." + ext[..n] + [ext[n]];
    }
  }

  // ---------------------------------------------------------------- the directory walk

  /** A directory tree; what the files contain is kept apart. */
  datatype Tree = File | Dir(entries: seq<Entry>)

  datatype Entry = Entry(name: string, tree: Tree)

  predicate HasFile(node: Tree, p: Path)
    decreases |p|, 1
  {
    node.Dir? && exists j :: 0 <= j < |node.entries| && Leads(node.entries[j], p)
  }

  /** Path p leads through this entry to a file. */
  predicate Leads(e: Entry, p: Path)
    decreases |p|, 0
  {
    && p != [] && p[0] == e.name
    && if |p| == 1 then e.tree.File? else HasFile(e.tree, p[1..])
  }

  lemma VisibleBelow(root: string, p: Path)
    requires |p| > 1
    ensures Visible(root, p) <==> !SkippedDir(root) && Visible(p[0], p[1..])
  {
    hide SkippedDir, Extension;
    var q := p[1..];
    if Visible(root, p) {
      assert !SkippedDir(p[0]);
      forall i | 0 <= i < |q| - 1 ensures !SkippedDir(q[i]) { assert q[i] == p[i + 1]; }
    }
    if !SkippedDir(root) && Visible(p[0], q) {
      forall i | 0 <= i < |p| - 1 ensures !SkippedDir(p[i]) { assert i > 0 ==> p[i] == q[i - 1]; }
    }
  }

  function Below(name: string, ps: seq<Path>): (r: seq<Path>)
    ensures |r| == |ps|
  {
    seq(|ps|, i requires 0 <= i < |ps| => [name] + ps[i])
  }

  lemma BelowHas(name: string, ps: seq<Path>, p: Path)
    ensures p in Below(name, ps) <==> p != [] && p[0] == name && p[1..] in ps
  {
    if p != [] && p[0] == name && p[1..] in ps {
      var i :| 0 <= i < |ps| && ps[i] == p[1..];
      assert p == [name] + p[1..] && Below(name, ps)[i] == p;
    }
    if p in Below(name, ps) {
      var i :| 0 <= i < |ps| && Below(name, ps)[i] == p;
      assert p[1..] == ps[i];
    }
  }

  /** filepath.WalkDir with the callback of FullScan: directories to skip are not entered, the root
      included, and of the files only the supported ones are taken. */
  method Walk(name: string, node: Tree) returns (found: seq<Path>)
    requires node.Dir?
    ensures forall p :: p in found <==> HasFile(node, p) && Visible(name, p)
    decreases node
  {
    hide HasFile, Visible, Below, Extension;
    found := [];
    if "." <= name || name == "node_modules" || name == "vendor" {
      forall p ensures !Visible(name, p) { SkippedHidesAll(name, p); }
      return;
    }
    for i := 0 to |node.entries|
      invariant forall p :: p in found <==> Visible(name, p) && exists j :: 0 <= j < i && Leads(node.entries[j], p)
    {
      var e := node.entries[i];
      ghost var before := found;
      match e.tree
      case File =>
        var ext := Extension(e.name);
        if ext == ".go" || ext == ".rs" || ext == ".ts" || ext == ".tsx" || ext == ".py" || ext == ".dart" {
          found := found + [[e.name]];
        }
        forall p ensures p in found <==> p in before || (Visible(name, p) && Leads(e, p)) { FileFound(name, e, p); }
      case Dir(_) =>
        var sub := Walk(e.name, e.tree);
        found := found + Below(e.name, sub);
        forall p ensures p in found <==> p in before || (Visible(name, p) && Leads(e, p)) {
          BelowHas(e.name, sub, p);
          DirFound(name, e, p);
        }
    }
    forall p ensures HasFile(node, p) <==> exists j :: 0 <= j < |node.entries| && Leads(node.entries[j], p) {
      HasFileIs(node, p);
    }
  }

  lemma HasFileIs(node: Tree, p: Path)
    requires node.Dir?
    ensures HasFile(node, p) <==> exists j :: 0 <= j < |node.entries| && Leads(node.entries[j], p)
  {
  }

  lemma SkippedHidesAll(name: string, p: Path)
    requires "." <= name || name == "node_modules" || name == "vendor"
    ensures !Visible(name, p)
  {
  }

  lemma FileFound(name: string, e: Entry, p: Path)
    requires e.tree.File? && !("." <= name || name == "node_modules" || name == "vendor")
    ensures var ext := Extension(e.name);
      Visible(name, p) && Leads(e, p) <==>
        p == [e.name] && (ext == ".go" || ext == ".rs" || ext == ".ts" || ext == ".tsx" || ext == ".py" || ext == ".dart")
  {
    hide Extension;
  }

  lemma DirFound(name: string, e: Entry, p: Path)
    requires e.tree.Dir? && !("." <= name || name == "node_modules" || name == "vendor")
    ensures Visible(name, p) && Leads(e, p) <==>
      p != [] && p[0] == e.name && HasFile(e.tree, p[1..]) && Visible(e.name, p[1..])
  {
    hide Extension;
    if |p| > 1 { VisibleBelow(name, p); }
  }

  // ---------------------------------------------------------------- store and extractor

  /** A batch upsert: the row of a key is replaced by the last record carrying that key. */
  function Upsert(t: Table, syms: seq<Symbol>): Table
  {
    if syms == [] then t
    else
      var s := syms[|syms| - 1];
      Upsert(t, syms[..|syms| - 1])[KeyOf(s) := s]
  }

  function DeleteFile(t: Table, p: Path): (r: Table)
    ensures forall k :: Get(r, k) == if k.file == p then None else Get(t, k)
  {
    map k | k in t && k.file != p :: t[k]
  }

  type Extractor = (Path, Content) -> Option<seq<Symbol>>

  /** An extractor stamps every record with the path it was given. */
  ghost predicate Honest(extract: Extractor)
  {
    forall p, c, s :: extract(p, c).Some? && s in extract(p, c).value ==> s.file == p
  }

  lemma {:induction false} UpsertOver(t: Table, syms: seq<Symbol>, k: Key)
    ensures Get(Upsert(t, syms), k)
         == if k in Upsert(map[], syms) then Get(Upsert(map[], syms), k) else Get(t, k)
  {
    if syms != [] { UpsertOver(t, syms[..|syms| - 1], k); }
  }

  /** The last of the records that carries key k. */
  function LastWith(syms: seq<Symbol>, k: Key): Option<Symbol>
  {
    if syms == [] then None
    else if KeyOf(syms[|syms| - 1]) == k then Some(syms[|syms| - 1])
    else LastWith(syms[..|syms| - 1], k)
  }

  /** A batch leaves, for each key, the last record that carries it, and the old row if none does. */
  lemma {:induction false} UpsertIs(t: Table, syms: seq<Symbol>, k: Key)
    ensures Get(Upsert(t, syms), k) == if LastWith(syms, k).Some? then LastWith(syms, k) else Get(t, k)
  {
    if syms != [] { UpsertIs(t, syms[..|syms| - 1], k); }
  }

  lemma {:induction false} UpsertAppend(t: Table, a: seq<Symbol>, b: seq<Symbol>)
    ensures Upsert(t, a + b) == Upsert(Upsert(t, a), b)
  {
    if b == [] {
      assert a + b == a;
    } else {
      UpsertAppend(t, a, b[..|b| - 1]);
      assert (a + b)[..|a + b| - 1] == a + b[..|b| - 1];
    }
  }

  lemma {:induction false} UpsertFile(syms: seq<Symbol>, p: Path, k: Key)
    requires forall s :: s in syms ==> s.file == p
    ensures k in Upsert(map[], syms) ==> k.file == p
  {
    if syms != [] {
      assert syms[|syms| - 1] in syms;
      UpsertFile(syms[..|syms| - 1], p, k);
    }
  }

  // ---------------------------------------------------------------- reference

  /** The row key k should have, judged from the files alone. */
  function Expected(root: string, extract: Extractor, fs: Files, k: Key): Option<Symbol>
  {
    if Visible(root, k.file) && k.file in fs && extract(k.file, fs[k.file]).Some?
    then Get(Upsert(map[], extract(k.file, fs[k.file]).value), k)
    else None
  }

  ghost predicate Agrees(root: string, extract: Extractor, fs: Files, t: Table)
  {
    forall k :: Get(t, k) == Expected(root, extract, fs, k)
  }

  /** The reference table is unique. */
  lemma AgreesUnique(root: string, extract: Extractor, fs: Files, t: Table, u: Table)
    requires Agrees(root, extract, fs, t) && Agrees(root, extract, fs, u)
    ensures t == u
  {
    forall k ensures Get(t, k) == Get(u, k) { }
    forall k ensures k in t <==> k in u { assert Get(t, k) == Get(u, k); }
    forall k | k in t ensures t[k] == u[k] { assert Get(t, k) == Get(u, k); }
  }

  // ---------------------------------------------------------------- the pipeline

  datatype Op = OpWrite | OpRemove

  datatype Event = Event(path: Path, op: Op)

  /** What one event does to the table, given what reading the file returned. */
  function Handled(extract: Extractor, t: Table, ev: Event, content: Option<Content>): Table
  {
    match ev.op
    case OpRemove => DeleteFile(t, ev.path)
    case OpWrite =>
      if content.None? then t
      else match extract(ev.path, content.value)
        case None => t
        case Some(syms) => Upsert(DeleteFile(t, ev.path), syms)
  }

  /** The records collected so far are those of the files that are done. */
  ghost predicate Scanned(root: string, extract: Extractor, fs: Files, done: seq<Path>, all: seq<Symbol>)
  {
    forall k :: Get(Upsert(map[], all), k) == if k.file in done then Expected(root, extract, fs, k) else None
  }

  /** A scan over a table that already has rows replaces and adds, but never deletes. */
  ghost predicate ScannedOver(root: string, extract: Extractor, fs: Files, before: Table, t: Table)
  {
    forall k :: Get(t, k) == var e := Expected(root, extract, fs, k); if e.Some? then e else Get(before, k)
  }

  lemma ScanStep(root: string, extract: Extractor, fs: Files, done: seq<Path>, p: Path, all: seq<Symbol>)
    requires Honest(extract) && Scanned(root, extract, fs, done, all)
    requires p in fs && Visible(root, p)
    ensures var syms := if extract(p, fs[p]).Some? then extract(p, fs[p]).value else [];
      Scanned(root, extract, fs, done + [p], all + syms)
  {
    var syms := if extract(p, fs[p]).Some? then extract(p, fs[p]).value else [];
    forall k ensures Get(Upsert(map[], all + syms), k)
                  == (if k.file in done + [p] then Expected(root, extract, fs, k) else None)
    {
      UpsertAppend(map[], all, syms);
      UpsertOver(Upsert(map[], all), syms, k);
      UpsertFile(syms, p, k);
    }
  }

  class Pipeline {
    const root: string
    const extract: Extractor
    var store: Table

    constructor (root: string, extract: Extractor)
      ensures this.root == root && this.extract == extract && store == map[]
    {
      this.root, this.extract, store := root, extract, map[];
    }

    /** Pipeline.FullScan: walk the tree, which holds the files fs, collect, upsert once. */
    method FullScan(tree: Tree, fs: Files)
      requires Honest(extract) && tree.Dir? && forall p :: p in fs <==> HasFile(tree, p)
      modifies this
      ensures ScannedOver(root, extract, fs, old(store), store)
      ensures old(store) == map[] ==> Agrees(root, extract, fs, store)
    {
      var all: seq<Symbol> := [];
      var paths := Walk(root, tree);
      hide HasFile, Visible;
      for i := 0 to |paths|
        invariant Scanned(root, extract, fs, paths[..i], all) && store == old(store)
      {
        var p := paths[i];
        assert p in paths;
        ScanStep(root, extract, fs, paths[..i], p, all);
        assert paths[..i + 1] == paths[..i] + [p];
        match extract(p, fs[p])
        case None => assert all + [] == all;
        case Some(syms) => all := all + syms;
      }
      assert paths[..|paths|] == paths;
      if |all| > 0 { store := Upsert(store, all); }
      forall k ensures Get(store, k) == var e := Expected(root, extract, fs, k); if e.Some? then e else Get(old(store), k)
      {
        UpsertOver(old(store), all, k);
        assert Get(Upsert(map[], all), k) == Expected(root, extract, fs, k);
      }
    }

    /** Pipeline.handleChange; content is what reading the file returned. */
    method HandleChange(ev: Event, content: Option<Content>)
      modifies this
      ensures store == Handled(extract, old(store), ev, content)
    {
      match ev.op
      case OpRemove =>
        store := DeleteFile(store, ev.path);
      case OpWrite =>
        if content.None? { return; }
        match extract(ev.path, content.value)
        case None => return;
        case Some(syms) =>
          store := DeleteFile(store, ev.path);
          if |syms| > 0 { store := Upsert(store, syms); }
    }

    /** Pipeline.Run until the event channel closes. */
    method Run(evs: seq<(Event, Option<Content>)>)
      modifies this
      ensures store == HandledAll(extract, old(store), evs)
    {
      for i := 0 to |evs|
        invariant store == HandledAll(extract, old(store), evs[..i])
      {
        assert evs[..i + 1][..i] == evs[..i];
        HandleChange(evs[i].0, evs[i].1);
      }
      assert evs[..|evs|] == evs;
    }
  }

  /** A batch of events, each with what reading its file returned. */
  function HandledAll(extract: Extractor, t: Table, evs: seq<(Event, Option<Content>)>): Table
  {
    if evs == [] then t
    else
      var n := |evs| - 1;
      Handled(extract, HandledAll(extract, t, evs[..n]), evs[n].0, evs[n].1)
  }

  // ---------------------------------------------------------------- files and events over time

  datatype World = World(fs: Files, queue: seq<Event>, store: Table)

  /** Files change, the watcher queues events for visible files, the pipeline handles the
      oldest one and reads the file as it is then. */
  datatype Step = Write(p: Path, c: Content) | Remove(p: Path) | Notify(ev: Event) | Handle

  predicate Enabled(root: string, w: World, st: Step)
  {
    match st
    case Write(_, _) => true
    case Remove(p) => p in w.fs
    case Notify(ev) => Visible(root, ev.path)
    case Handle => w.queue != []
  }

  function ReadFile(fs: Files, p: Path): Option<Content> { if p in fs then Some(fs[p]) else None }

  function Next(extract: Extractor, w: World, st: Step): World
    requires st.Handle? ==> w.queue != []
  {
    match st
    case Write(p, c) => w.(fs := w.fs[p := c])
    case Remove(p) => w.(fs := w.fs - {p})
    case Notify(ev) => w.(queue := w.queue + [ev])
    case Handle =>
      var ev := w.queue[0];
      w.(queue := w.queue[1..], store := Handled(extract, w.store, ev, ReadFile(w.fs, ev.path)))
  }

  /** The world after a run, or None when some step was not enabled. */
  function After(root: string, extract: Extractor, w: World, run: seq<Step>): Option<World>
  {
    if run == [] then Some(w)
    else
      var n := |run| - 1;
      match After(root, extract, w, run[..n])
      case None => None
      case Some(v) => if Enabled(root, v, run[n]) then Some(Next(extract, v, run[n])) else None
  }

  predicate Matches(fs: Files, ev: Event) { ev.op == (if ev.path in fs then OpWrite else OpRemove) }

  /** The paths whose last event, if any, does not tell their present state: they changed since
      it was queued, or it told something else. */
  function Unsettled(root: string, extract: Extractor, w: World, run: seq<Step>): set<Path>
    requires After(root, extract, w, run).Some?
  {
    if run == [] then {}
    else
      var n := |run| - 1;
      var u := Unsettled(root, extract, w, run[..n]);
      match run[n]
      case Write(p, _) => u + {p}
      case Remove(p) => u + {p}
      case Notify(ev) =>
        if Matches(After(root, extract, w, run[..n]).value.fs, ev) then u - {ev.path} else u + {ev.path}
      case Handle => u
  }

  // ---------------------------------------------------------------- invariant

  /** The rows of file p are those its present content calls for. */
  ghost predicate InSync(root: string, extract: Extractor, w: World, p: Path)
  {
    forall k: Key :: k.file == p ==> Get(w.store, k) == Expected(root, extract, w.fs, k)
  }

  predicate Fails(extract: Extractor, fs: Files, p: Path)
  {
    p in fs && extract(p, fs[p]).None?
  }

  /** The last event queued for p, if any. */
  function LastOp(q: seq<Event>, p: Path): Option<Op>
  {
    if q == [] then None
    else if q[|q| - 1].path == p then Some(q[|q| - 1].op)
    else LastOp(q[..|q| - 1], p)
  }

  ghost predicate PathOk(root: string, extract: Extractor, w: World, p: Path)
  {
    match LastOp(w.queue, p)
    case None => InSync(root, extract, w, p) || Fails(extract, w.fs, p)
    case Some(op) => Matches(w.fs, Event(p, op))
  }

  ghost predicate Inv(root: string, extract: Extractor, w: World, u: set<Path>)
  {
    forall p :: p !in u && Visible(root, p) ==> PathOk(root, extract, w, p)
  }

  lemma {:induction false} LastOpTail(q: seq<Event>, p: Path)
    requires q != []
    ensures LastOp(q, p) == if LastOp(q[1..], p).Some? then LastOp(q[1..], p)
                            else if q[0].path == p then Some(q[0].op) else None
  {
    if |q| > 1 {
      LastOpTail(q[..|q| - 1], p);
      assert q[..|q| - 1][1..] == q[1..][..|q| - 2];
      assert q[1..][|q| - 2] == q[|q| - 1];
    } else {
      assert q[1..] == [] && q[..0] == [];
    }
  }

  /** Handling an event of another file leaves the rows of p alone. */
  lemma HandleOther(extract: Extractor, t: Table, ev: Event, content: Option<Content>, k: Key)
    requires Honest(extract) && k.file != ev.path
    ensures Get(Handled(extract, t, ev, content), k) == Get(t, k)
  {
    if ev.op.OpWrite? && content.Some? && extract(ev.path, content.value).Some? {
      var syms := extract(ev.path, content.value).value;
      UpsertOver(DeleteFile(t, ev.path), syms, k);
      UpsertFile(syms, ev.path, k);
    }
  }

  /** Handling an event that tells the truth about a visible file brings it in sync, unless its
      content does not extract. */
  lemma HandleTrue(root: string, extract: Extractor, w: World, ev: Event)
    requires Honest(extract) && Visible(root, ev.path) && Matches(w.fs, ev)
    ensures var t := Handled(extract, w.store, ev, ReadFile(w.fs, ev.path));
      InSync(root, extract, w.(store := t), ev.path) || Fails(extract, w.fs, ev.path)
  {
    var t := Handled(extract, w.store, ev, ReadFile(w.fs, ev.path));
    if !Fails(extract, w.fs, ev.path) {
      forall k: Key | k.file == ev.path ensures Get(t, k) == Expected(root, extract, w.fs, k) {
        if ev.op.OpWrite? {
          UpsertOver(DeleteFile(w.store, ev.path), extract(ev.path, w.fs[ev.path]).value, k);
        }
      }
    }
  }

  lemma HandlePath(root: string, extract: Extractor, w: World, p: Path)
    requires Honest(extract) && w.queue != [] && Visible(root, p) && PathOk(root, extract, w, p)
    ensures PathOk(root, extract, Next(extract, w, Handle), p)
  {
    var v := Next(extract, w, Handle);
    var ev := w.queue[0];
    LastOpTail(w.queue, p);
    if LastOp(v.queue, p).None? {
      if ev.path == p {
        HandleTrue(root, extract, w, ev);
      } else if InSync(root, extract, w, p) {
        forall k: Key | k.file == p ensures Get(v.store, k) == Expected(root, extract, v.fs, k) {
          HandleOther(extract, w.store, ev, ReadFile(w.fs, ev.path), k);
        }
      }
    }
  }

  lemma ChangeOther(root: string, extract: Extractor, w: World, v: World, p: Path)
    requires PathOk(root, extract, w, p) && v.store == w.store && v.queue == w.queue
    requires ReadFile(v.fs, p) == ReadFile(w.fs, p)
    ensures PathOk(root, extract, v, p)
  {
  }

  lemma {:induction false} RunInv(root: string, extract: Extractor, w: World, run: seq<Step>)
    requires Honest(extract) && After(root, extract, w, run).Some?
    requires Agrees(root, extract, w.fs, w.store) && w.queue == []
    ensures Inv(root, extract, After(root, extract, w, run).value, Unsettled(root, extract, w, run))
  {
    if run != [] {
      var n := |run| - 1;
      RunInv(root, extract, w, run[..n]);
      var a := After(root, extract, w, run[..n]).value;
      var b := After(root, extract, w, run).value;
      var u := Unsettled(root, extract, w, run);
      hide After, Unsettled;
      forall p | p !in u && Visible(root, p) ensures PathOk(root, extract, b, p) {
        match run[n]
        case Write(q, c) => ChangeOther(root, extract, a, b, p);
        case Remove(q) => ChangeOther(root, extract, a, b, p);
        case Notify(ev) =>
          assert b.queue[..|b.queue| - 1] == a.queue;
          if ev.path != p { ChangeOther(root, extract, a, b.(queue := a.queue), p); }
        case Handle => HandlePath(root, extract, a, p);
      }
    }
  }

  // ---------------------------------------------------------------- main results

  /** Start from the table of a full scan and let files change while events are queued and
      handled in any order. Once the queue is empty and every visible file's last event told
      its final state, the table equals the one a full scan builds on the final files,
      provided the final contents extract. */
  lemma IncrementalEqualsFullScan(root: string, extract: Extractor, w: World, run: seq<Step>, rescan: Table)
    requires Honest(extract) && After(root, extract, w, run).Some?
    requires Agrees(root, extract, w.fs, w.store) && w.queue == []
    requires var v := After(root, extract, w, run).value;
      && v.queue == []
      && (forall p :: p in Unsettled(root, extract, w, run) ==> !Visible(root, p))
      && (forall p :: Visible(root, p) ==> !Fails(extract, v.fs, p))
      && Agrees(root, extract, v.fs, rescan)
    ensures After(root, extract, w, run).value.store == rescan
  {
    SettledAgrees(root, extract, w, run);
    AgreesUnique(root, extract, After(root, extract, w, run).value.fs,
                 After(root, extract, w, run).value.store, rescan);
  }

  /** The records the table holds for file p, judged from the run alone: those of its initial
      content, until a handled removal drops them or a handled write reads a content that
      extracts. */
  function Kept(root: string, extract: Extractor, w: World, run: seq<Step>, p: Path): seq<Symbol>
    requires After(root, extract, w, run).Some?
  {
    if run == [] then Records(root, extract, w.fs, p)
    else
      var n := |run| - 1;
      var a := After(root, extract, w, run[..n]).value;
      var before := Kept(root, extract, w, run[..n], p);
      if !run[n].Handle? || a.queue[0].path != p then before
      else if a.queue[0].op.OpRemove? then []
      else if p in a.fs && extract(p, a.fs[p]).Some? then extract(p, a.fs[p]).value
      else before
  }

  /** The records a scan finds in file p. */
  function Records(root: string, extract: Extractor, fs: Files, p: Path): seq<Symbol>
  {
    if Visible(root, p) && p in fs && extract(p, fs[p]).Some? then extract(p, fs[p]).value else []
  }

  lemma HandleOwn(extract: Extractor, t: Table, ev: Event, content: Option<Content>, k: Key)
    requires k.file == ev.path
    ensures Get(Handled(extract, t, ev, content), k) ==
      if ev.op.OpRemove? then None
      else if content.Some? && extract(ev.path, content.value).Some?
      then Get(Upsert(map[], extract(ev.path, content.value).value), k)
      else Get(t, k)
  {
    if ev.op.OpWrite? && content.Some? && extract(ev.path, content.value).Some? {
      UpsertOver(DeleteFile(t, ev.path), extract(ev.path, content.value).value, k);
    }
  }

  /** At every moment of every run, settled or not, the rows of a file are those records. */
  lemma {:induction false} RowsAreKept(root: string, extract: Extractor, w: World, run: seq<Step>, k: Key)
    requires Honest(extract) && After(root, extract, w, run).Some?
    requires Agrees(root, extract, w.fs, w.store)
    ensures Get(After(root, extract, w, run).value.store, k) == Get(Upsert(map[], Kept(root, extract, w, run, k.file)), k)
  {
    if run != [] {
      var n := |run| - 1;
      RowsAreKept(root, extract, w, run[..n], k);
      var a := After(root, extract, w, run[..n]).value;
      if run[n].Handle? {
        var ev := a.queue[0];
        if ev.path == k.file {
          HandleOwn(extract, a.store, ev, ReadFile(a.fs, ev.path), k);
        } else {
          HandleOther(extract, a.store, ev, ReadFile(a.fs, ev.path), k);
        }
      }
    } else {
      assert Get(w.store, k) == Expected(root, extract, w.fs, k);
    }
  }

  lemma {:induction false} KeptOwn(root: string, extract: Extractor, w: World, run: seq<Step>, p: Path, s: Symbol)
    requires Honest(extract) && After(root, extract, w, run).Some?
    requires s in Kept(root, extract, w, run, p)
    ensures s.file == p
  {
    if run != [] {
      var n := |run| - 1;
      if s in Kept(root, extract, w, run[..n], p) { KeptOwn(root, extract, w, run[..n], p, s); }
    }
  }

  lemma LastUpsert(syms: seq<Symbol>)
    requires syms != []
    ensures KeyOf(syms[|syms| - 1]) in Upsert(map[], syms)
  {
  }

  /** Whether or not contents extract: the settled table agrees with the final files if and only
      if nothing is kept, by the history of the run, of a visible file whose final content does
      not extract. */
  lemma SettledAgrees(root: string, extract: Extractor, w: World, run: seq<Step>)
    requires Honest(extract) && After(root, extract, w, run).Some?
    requires Agrees(root, extract, w.fs, w.store) && w.queue == []
    requires After(root, extract, w, run).value.queue == []
    requires forall p :: p in Unsettled(root, extract, w, run) ==> !Visible(root, p)
    ensures var v := After(root, extract, w, run).value;
      Agrees(root, extract, v.fs, v.store) <==>
        forall p :: Visible(root, p) && Fails(extract, v.fs, p) ==> Kept(root, extract, w, run, p) == []
  {
    var v := After(root, extract, w, run).value;
    if forall p :: Visible(root, p) && Fails(extract, v.fs, p) ==> Kept(root, extract, w, run, p) == [] {
      RunInv(root, extract, w, run);
      OnlyVisibleRows(root, extract, w, run);
      forall k ensures Get(v.store, k) == Expected(root, extract, v.fs, k) {
        RowsAreKept(root, extract, w, run, k);
        if Visible(root, k.file) { assert PathOk(root, extract, v, k.file); }
      }
    }
    if Agrees(root, extract, v.fs, v.store) {
      forall p | Visible(root, p) && Fails(extract, v.fs, p) ensures Kept(root, extract, w, run, p) == [] {
        NothingKept(root, extract, w, run, p);
      }
    }
  }

  lemma NothingKept(root: string, extract: Extractor, w: World, run: seq<Step>, p: Path)
    requires Honest(extract) && After(root, extract, w, run).Some?
    requires Agrees(root, extract, w.fs, w.store)
    requires var v := After(root, extract, w, run).value;
      Agrees(root, extract, v.fs, v.store) && Fails(extract, v.fs, p)
    ensures Kept(root, extract, w, run, p) == []
  {
    var syms := Kept(root, extract, w, run, p);
    if syms != [] {
      var last := syms[|syms| - 1];
      KeptOwn(root, extract, w, run, p, last);
      LastUpsert(syms);
      RowsAreKept(root, extract, w, run, KeyOf(last));
    }
  }

  ghost predicate VisibleOnly(root: string, w: World)
  {
    && (forall k: Key :: k in w.store ==> Visible(root, k.file))
    && (forall ev :: ev in w.queue ==> Visible(root, ev.path))
  }

  /** Rows and events only ever concern visible files. */
  lemma {:induction false} OnlyVisibleRows(root: string, extract: Extractor, w: World, run: seq<Step>)
    requires Honest(extract) && After(root, extract, w, run).Some?
    requires Agrees(root, extract, w.fs, w.store) && w.queue == []
    ensures VisibleOnly(root, After(root, extract, w, run).value)
  {
    if run == [] {
      forall k | k in w.store ensures Visible(root, k.file) {
        assert Get(w.store, k) == Expected(root, extract, w.fs, k);
      }
    } else {
      var n := |run| - 1;
      OnlyVisibleRows(root, extract, w, run[..n]);
      var a := After(root, extract, w, run[..n]).value;
      if run[n].Handle? {
        var ev := a.queue[0];
        forall k: Key | k in Next(extract, a, Handle).store ensures Visible(root, k.file) {
          if k.file != ev.path {
            HandleOther(extract, a.store, ev, ReadFile(a.fs, ev.path), k);
          }
        }
      }
    }
  }

  lemma Extend(root: string, extract: Extractor, w: World, run: seq<Step>, st: Step)
    requires After(root, extract, w, run).Some? && Enabled(root, After(root, extract, w, run).value, st)
    ensures After(root, extract, w, run + [st]) == Some(Next(extract, After(root, extract, w, run).value, st))
  {
    assert (run + [st])[..|run|] == run;
  }

  /** One write to a visible file, reported and handled: the file's rows are those of the new content
      if that extracts and are untouched otherwise, and so are all other rows. */
  lemma WriteIsIndexed(root: string, extract: Extractor, w: World, p: Path, c: Content, k: Key)
    requires Honest(extract) && Visible(root, p) && w.queue == []
    ensures var run := [Write(p, c)] + [Notify(Event(p, OpWrite))] + [Handle];
      && After(root, extract, w, run).Some?
      && var v := After(root, extract, w, run).value;
         && v.fs == w.fs[p := c] && v.queue == []
         && Get(v.store, k) == if k.file == p && extract(p, c).Some? then LastWith(extract(p, c).value, k)
                               else Get(w.store, k)
  {
    var ev := Event(p, OpWrite);
    assert After(root, extract, w, []) == Some(w) && [] + [Write(p, c)] == [Write(p, c)];
    hide After;
    Extend(root, extract, w, [], Write(p, c));
    Extend(root, extract, w, [Write(p, c)], Notify(ev));
    Extend(root, extract, w, [Write(p, c)] + [Notify(ev)], Handle);
    if k.file == p {
      HandleOwn(extract, w.store, ev, Some(c), k);
      if extract(p, c).Some? { UpsertIs(map[], extract(p, c).value, k); }
    } else {
      HandleOther(extract, w.store, ev, Some(c), k);
    }
  }

  /** One removal of a visible file, reported and handled: the file's rows are gone, and no others. */
  lemma RemovalIsIndexed(root: string, extract: Extractor, w: World, p: Path, k: Key)
    requires Visible(root, p) && w.queue == [] && p in w.fs
    ensures var run := [Remove(p)] + [Notify(Event(p, OpRemove))] + [Handle];
      && After(root, extract, w, run).Some?
      && var v := After(root, extract, w, run).value;
         && v.fs == w.fs - {p} && v.queue == []
         && Get(v.store, k) == if k.file == p then None else Get(w.store, k)
  {
    var ev := Event(p, OpRemove);
    assert After(root, extract, w, []) == Some(w) && [] + [Remove(p)] == [Remove(p)];
    hide After;
    Extend(root, extract, w, [], Remove(p));
    Extend(root, extract, w, [Remove(p)], Notify(ev));
    Extend(root, extract, w, [Remove(p)] + [Notify(ev)], Handle);
  }

  /** Stale rows do occur: a file is indexed, then rewritten so that it no longer extracts. The
      event is handled, yet its old row stays, while a rescan would have none. */
  lemma StaleRowsExample(p: Path, row: Symbol)
    requires Visible("repo", p) && row.file == p
    ensures var extract: Extractor := (q, c) => if c == "good" && q == p then Some([row]) else None;
      var w := World(map[p := "good"], [], map[KeyOf(row) := row]);
      var run := [Write(p, "bad")] + [Notify(Event(p, OpWrite))] + [Handle];
      && Honest(extract) && Agrees("repo", extract, w.fs, w.store)
      && After("repo", extract, w, run).Some?
      && var v := After("repo", extract, w, run).value;
         && v.queue == [] && p !in Unsettled("repo", extract, w, run)
         && Kept("repo", extract, w, run, p) == [row] && !Agrees("repo", extract, v.fs, v.store)
  {
    var extract: Extractor := (q, c) => if c == "good" && q == p then Some([row]) else None;
    var w := World(map[p := "good"], [], map[KeyOf(row) := row]);
    var r1 := [Write(p, "bad")];
    var r2 := r1 + [Notify(Event(p, OpWrite))];
    var r3 := r2 + [Handle];
    assert r1[..0] == [] && r2[..1] == r1 && r3[..2] == r2;
    assert [row][..0] == [];
    assert Upsert(map[], [row]) == map[KeyOf(row) := row];
    assert After("repo", extract, w, r1) == Some(w.(fs := w.fs[p := "bad"]));
    assert After("repo", extract, w, r2).Some?;
    assert Kept("repo", extract, w, [], p) == [row];
    assert Kept("repo", extract, w, r1, p) == [row];
    assert Kept("repo", extract, w, r2, p) == [row];
    var v := After("repo", extract, w, r3).value;
    assert Get(v.store, KeyOf(row)) == Some(row) && Fails(extract, v.fs, p);
    assert Expected("repo", extract, v.fs, KeyOf(row)) == None;
  }
}
