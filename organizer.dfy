/** The batch organise pass of modules/core_organizer.py: validate the
    directory, reset it (empty every subfolder into the top level), provision
    one container per configured category, then move every remaining file into
    its category's container, applying the rules to each file. */
module Organizer {
  import opened Base
  import opened Names
  import opened Fs
  import opened Categories
  import Vault
  import Rules

  /** The one subfolder the reset never touches. */
  const SystemVolumeInformation: string := "System Volume Information"

  const MetaName: string := ".meta"

  /** The output of a pass that logs its failures instead of raising. */
  datatype Pass = Pass(tree: Tree, out: seq<Event>)

  // ---------------------------------------------------------------------------
  // Reset

  /** `shutil.move(child, directory)` for each child of `sub` listed in
      `names`; a refused move is logged and the loop goes on. */
  function MoveChildrenUp(t: Tree, denied: set<RelPath>, sub: string, names: seq<string>): Pass
    decreases |names|
  {
    if names == [] then Pass(t, [])
    else
      var m := MoveUp(t, denied, sub, names[0]);
      var head := if m.err.Some? then [Logged(ResetFailed(names[0], m.err.value))] else [];
      var rest := MoveChildrenUp(m.tree, denied, sub, names[1..]);
      Pass(rest.tree, head + rest.out)
  }

  /** One turn of the loop that empties a folder keeps the loop's account
      of the whole sequence of moves. */
  lemma MoveUpStep(t: Tree, denied: set<RelPath>, sub: string, names: seq<string>, out: seq<Event>, whole: Pass)
    requires names != []
    requires whole.tree == MoveChildrenUp(t, denied, sub, names).tree
    requires whole.out == out + MoveChildrenUp(t, denied, sub, names).out
    ensures var m := MoveUp(t, denied, sub, names[0]);
      var head := if m.err.Some? then [Logged(ResetFailed(names[0], m.err.value))] else [];
      whole.tree == MoveChildrenUp(m.tree, denied, sub, names[1..]).tree &&
      whole.out == (out + head) + MoveChildrenUp(m.tree, denied, sub, names[1..]).out
  {
    var m := MoveUp(t, denied, sub, names[0]);
    var head := if m.err.Some? then [Logged(ResetFailed(names[0], m.err.value))] else [];
    AppendAssoc(out, head, MoveChildrenUp(m.tree, denied, sub, names[1..]).out);
  }

  /** The children of a top-level directory, in listing order. */
  function ChildNames(t: Tree, sub: string): seq<string>
  {
    if IsDirAt(t, sub) then Listing(t[sub].children.Keys) else []
  }

  /** `_empty_folder(directory/sub)`: move every child up, then `rmdir`,
      logging a refused removal. */
  function EmptyFolderSpec(t: Tree, denied: set<RelPath>, sub: string): Pass
  {
    var moved := MoveChildrenUp(t, denied, sub, ChildNames(t, sub));
    var r := Rmdir(moved.tree, denied, sub);
    Pass(r.tree, moved.out + if r.err.Some? then [Logged(RemovalFailed(r.err.value))] else [])
  }

  /** Whether the reset empties the top-level entry `name`. */
  predicate ResetsFolder(t: Tree, name: string)
  {
    IsDirAt(t, name) && name != SystemVolumeInformation
  }

  /** `_reset_desktop` over the listing `names` taken when it starts; each
      entry is tested when its turn comes. */
  function ResetSweep(t: Tree, denied: set<RelPath>, names: seq<string>): Pass
    decreases |names|
  {
    if names == [] then Pass(t, [])
    else
      var h := if ResetsFolder(t, names[0]) then EmptyFolderSpec(t, denied, names[0]) else Pass(t, []);
      var rest := ResetSweep(h.tree, denied, names[1..]);
      Pass(rest.tree, h.out + rest.out)
  }

  /** One turn of the reset loop keeps the loop's account of the whole sweep. */
  lemma ResetStep(t: Tree, denied: set<RelPath>, names: seq<string>, out: seq<Event>, whole: Pass)
    requires names != []
    requires whole.tree == ResetSweep(t, denied, names).tree
    requires whole.out == out + ResetSweep(t, denied, names).out
    ensures var h := if ResetsFolder(t, names[0]) then EmptyFolderSpec(t, denied, names[0]) else Pass(t, []);
      whole.tree == ResetSweep(h.tree, denied, names[1..]).tree &&
      whole.out == (out + h.out) + ResetSweep(h.tree, denied, names[1..]).out
  {
    var h := if ResetsFolder(t, names[0]) then EmptyFolderSpec(t, denied, names[0]) else Pass(t, []);
    AppendAssoc(out, h.out, ResetSweep(h.tree, denied, names[1..]).out);
  }

  function ResetSpec(t: Tree, denied: set<RelPath>): Pass
  {
    ResetSweep(t, denied, Listing(t.Keys))
  }

  // ---------------------------------------------------------------------------
  // Containers

  /** `json.dumps({'color': color, 'icon': icon})`. */
  function MetaJson(c: Category): string
  {
    "{\"color\": " + c.color + ", \"icon\": " + c.icon + "}"
  }

  /** The container of `c` exists and its `.meta` holds the category's style. */
  predicate HasContainer(t: Tree, c: Category)
  {
    IsDirAt(t, c.name) && MetaName in t[c.name].children && t[c.name].children[MetaName] == File(MetaJson(c))
  }

  /** `_create_containers`: for each category in table order, `mkdir(exist_ok=True)`
      then write `.meta`; the first exception ends the loop and propagates. */
  function ProvisionSpec(t: Tree, denied: set<RelPath>, cats: seq<Category>): Step
    decreases |cats|
  {
    if cats == [] then Step(t, None)
    else
      var c := cats[0];
      var d := MkdirExistOk(t, denied, c.name);
      if d.err.Some? then d
      else
        var w := WriteInside(d.tree, denied, c.name, MetaName, MetaJson(c));
        if w.err.Some? then w else ProvisionSpec(w.tree, denied, cats[1..])
  }

  // ---------------------------------------------------------------------------
  // File pass

  /** `DesktopOrganizer._move_file(directory/name, directory/cat)`: create the
      container when nothing has that name, then `shutil.move` the file to
      `cat/name`, replacing a file already there. */
  function MoveFileSpec(t: Tree, denied: set<RelPath>, name: string, cat: string): Step
  {
    var d := MkdirIfAbsent(t, denied, cat);
    if d.err.Some? then d else MoveInto(d.tree, denied, name, cat, true)
  }

  /** What a move does: on failure at most the new empty container remains;
      on success the file has left the top level for `cat/name`, replacing a
      file of that name there, and every other entry is unchanged. */
  lemma MoveFileOutcome(t: Tree, denied: set<RelPath>, name: string, cat: string)
    ensures var s := MoveFileSpec(t, denied, name, cat);
      s.err.Some? ==> s.tree == t || (cat !in t && s.tree == t[cat := Dir(map[])])
    ensures var s := MoveFileSpec(t, denied, name, cat);
      s.err.None? ==>
        name in t && name != cat && name !in s.tree && IsDirAt(s.tree, cat) &&
        (cat in t ==> IsDirAt(t, cat)) &&
        s.tree[cat].children == (if cat in t then t[cat].children else map[])[name := t[name]] &&
        (forall k :: k in t && k != name && k != cat ==> k in s.tree && s.tree[k] == t[k])
    ensures var s := MoveFileSpec(t, denied, name, cat);
      s.err.None? <==>
        name in t && name != cat && [name] !in denied && (cat in t || [cat] !in denied) &&
        (cat in t ==> IsDirAt(t, cat) && (name in t[cat].children ==> t[cat].children[name].File?))
  {
  }

  /** The entries the file pass leaves where they are. */
  predicate Skipped(t: Tree, name: string)
  {
    IsDirAt(t, name) || StartsWith(name, ".") || Vault.IsEncrypted(name)
  }

  /** One turn of `_process_files`: skip, else move to its category (logging a
      failure), then, when `rules` is non-empty, apply the engine's rules and
      `rules` to the pre-move name. */
  function ProcessOne(t: Tree, denied: set<RelPath>, cfg: Config, name: string,
                      rules: seq<Rules.Rule>, engineRules: seq<Rules.Rule>, env: Rules.Env): (e: Rules.Effect)
    ensures Skipped(t, name) ==> e == Rules.Effect(t, [], None)
    ensures rules == [] ==> e.err.None?
  {
    if Skipped(t, name) then Rules.Effect(t, [], None)
    else
      var cat := DetermineCategory(cfg, name);
      var m := MoveFileSpec(t, denied, name, cat);
      var log := if m.err.Some? then [Logged(MoveFailed(name, cat, m.err.value))] else [];
      if rules == [] then Rules.Effect(m.tree, log, None)
      else
        var a := Rules.ApplyRules(m.tree, denied, name, engineRules + rules, env);
        Rules.Effect(a.tree, log + a.out, a.err)
  }

  /** `_process_files` over the listing `names`; an exception from the rules
      ends the pass and propagates. */
  function ProcessSweep(t: Tree, denied: set<RelPath>, cfg: Config, names: seq<string>,
                        rules: seq<Rules.Rule>, engineRules: seq<Rules.Rule>, env: Rules.Env): (e: Rules.Effect)
    ensures rules == [] ==> e.err.None?
    decreases |names|
  {
    if names == [] then Rules.Effect(t, [], None)
    else
      var h := ProcessOne(t, denied, cfg, names[0], rules, engineRules, env);
      if h.err.Some? then h
      else
        var rest := ProcessSweep(h.tree, denied, cfg, names[1..], rules, engineRules, env);
        Rules.Effect(rest.tree, h.out + rest.out, rest.err)
  }

  function ProcessSpec(t: Tree, denied: set<RelPath>, cfg: Config,
                       rules: seq<Rules.Rule>, engineRules: seq<Rules.Rule>, env: Rules.Env): Rules.Effect
  {
    ProcessSweep(t, denied, cfg, Listing(t.Keys), rules, engineRules, env)
  }

  /** `_process_files` as a whole: `iterdir` raises when the directory has
      gone or is not a directory; otherwise the pass above. */
  function ProcessDirSpec(kind: PathKind, t: Tree, denied: set<RelPath>, cfg: Config,
                          rules: seq<Rules.Rule>, engineRules: seq<Rules.Rule>, env: Rules.Env): Rules.Effect
  {
    match kind
    case Missing => Rules.Effect(t, [], Some(NotFound(".")))
    case NotADir => Rules.Effect(t, [], Some(NotADirectory(".")))
    case IsDir => ProcessSpec(t, denied, cfg, rules, engineRules, env)
  }

  /** `organize(directory, rules)`: the four steps in order. */
  function OrganizeSpec(kind: PathKind, t: Tree, denied: set<RelPath>, cfg: Config,
                        rules: seq<Rules.Rule>, engineRules: seq<Rules.Rule>, env: Rules.Env): Rules.Effect
  {
    if kind != IsDir then Rules.Effect(t, [], Some(InvalidDirectory))
    else
      var r := ResetSpec(t, denied);
      var p := ProvisionSpec(r.tree, denied, cfg.categories);
      if p.err.Some? then Rules.Effect(p.tree, r.out, p.err)
      else
        var q := ProcessSpec(p.tree, denied, cfg, rules, engineRules, env);
        Rules.Effect(q.tree, r.out + q.out, q.err)
  }

  class DesktopOrganizer {
    const config: Config
    const engine: Rules.RuleEngine
    /** The running `FileMonitor`, if any. */
    var monitor: object?

    constructor (config: Config, engine: Rules.RuleEngine)
      ensures this.config == config && this.engine == engine && monitor == null
    {
      this.config := config;
      this.engine := engine;
      monitor := null;
    }

    /** `DesktopOrganizer.__init__` as it evidently should run: load the
        configuration, which raises when it cannot be read or parsed, then
        build the rule engine and a logger. */
    static method Create(configDocument: Result<Config>, rulesDocument: Option<seq<Rules.Rule>>)
      returns (r: Result<DesktopOrganizer>)
      ensures r.Ok? <==> configDocument.Ok?
      ensures r.Err? ==> r.failure == LoadConfig(configDocument).failure
      ensures r.Ok? ==> fresh(r.value) && r.value.config == configDocument.value &&
                        r.value.engine.rules == Rules.LoadRules(rulesDocument) && r.value.monitor == null
    {
      var cfg := LoadConfig(configDocument);
      if cfg.Err? {
        return Err(cfg.failure);
      }
      var engine := new Rules.RuleEngine(rulesDocument);
      var o := new DesktopOrganizer(cfg.value, engine);
      r := Ok(o);
    }

    /** `DesktopOrganizer.__init__` as written: after the configuration and
        the rule engine it calls `self._setup_logger()`, a method the class
        does not define, so construction never succeeds. */
    static method CreateAsWritten(configDocument: Result<Config>, rulesDocument: Option<seq<Rules.Rule>>)
      returns (r: Result<DesktopOrganizer>)
      ensures r.Err?
      ensures configDocument.Err? ==> r.failure == LoadConfig(configDocument).failure
      ensures configDocument.Ok? ==> r.failure == NoAttribute("DesktopOrganizer", "_setup_logger")
    {
      var cfg := LoadConfig(configDocument);
      if cfg.Err? {
        return Err(cfg.failure);
      }
      var engine := new Rules.RuleEngine(rulesDocument);
      return Err(NoAttribute("DesktopOrganizer", "_setup_logger"));
    }

    /** `organize`: the validation raises before anything changes. */
    method Organize(dir: Directory, rules: seq<Rules.Rule>, env: Rules.Env, sink: Sink)
      returns (err: Option<Failure>)
      modifies dir, sink
      ensures var e := OrganizeSpec(dir.kind, old(dir.entries), dir.denied, config, rules, engine.rules, env);
              dir.entries == e.tree && sink.events == old(sink.events) + e.out && err == e.err
    {
      ghost var t0, out0 := dir.entries, sink.events;
      err := ValidatePath(dir);
      if err.Some? {
        assert OrganizeSpec(dir.kind, t0, dir.denied, config, rules, engine.rules, env) == Rules.Effect(t0, [], err);
        return;
      }
      ResetDesktop(dir, sink);
      ghost var r := ResetSpec(t0, dir.denied);
      assert dir.entries == r.tree && sink.events == out0 + r.out;
      err := CreateContainers(dir);
      ghost var p := ProvisionSpec(r.tree, dir.denied, config.categories);
      assert dir.entries == p.tree && err == p.err;
      if err.Some? {
        assert OrganizeSpec(dir.kind, t0, dir.denied, config, rules, engine.rules, env) == Rules.Effect(p.tree, r.out, p.err);
        return;
      }
      err := ProcessFiles(dir, rules, env, sink);
      ghost var q := ProcessSpec(p.tree, dir.denied, config, rules, engine.rules, env);
      AppendAssoc(out0, r.out, q.out);
      assert dir.entries == q.tree && sink.events == out0 + (r.out + q.out) && err == q.err;
      assert OrganizeSpec(dir.kind, t0, dir.denied, config, rules, engine.rules, env) == Rules.Effect(q.tree, r.out + q.out, q.err);
    }

    /** `_validate_path`: the path must exist and be a directory. */
    method ValidatePath(dir: Directory) returns (err: Option<Failure>)
      ensures err.None? <==> dir.kind == IsDir
      ensures err.Some? ==> err.value == InvalidDirectory
    {
      if dir.kind != IsDir {
        return Some(InvalidDirectory);
      }
      return None;
    }

    method ResetDesktop(dir: Directory, sink: Sink)
      modifies dir, sink
      ensures var p := ResetSpec(old(dir.entries), dir.denied);
              dir.entries == p.tree && sink.events == old(sink.events) + p.out
    {
      var names := Listing(dir.entries.Keys);
      ghost var whole := ResetSweep(dir.entries, dir.denied, names);
      ghost var out: seq<Event> := [];
      var i := 0;
      while i < |names|
        invariant 0 <= i <= |names|
        invariant sink.events == old(sink.events) + out
        invariant whole.tree == ResetSweep(dir.entries, dir.denied, names[i..]).tree
        invariant whole.out == out + ResetSweep(dir.entries, dir.denied, names[i..]).out
      {
        assert names[i..][0] == names[i] && names[i..][1..] == names[i + 1..];
        ResetStep(dir.entries, dir.denied, names[i..], out, whole);
        if ResetsFolder(dir.entries, names[i]) {
          ghost var h := EmptyFolderSpec(dir.entries, dir.denied, names[i]);
          AppendAssoc(old(sink.events), out, h.out);
          EmptyFolder(dir, names[i], sink);
          out := out + h.out;
        } else {
          assert out + [] == out;
        }
        i := i + 1;
      }
      assert names[i..] == [];
    }

    method EmptyFolder(dir: Directory, sub: string, sink: Sink)
      modifies dir, sink
      ensures var p := EmptyFolderSpec(old(dir.entries), dir.denied, sub);
              dir.entries == p.tree && sink.events == old(sink.events) + p.out
    {
      var names := ChildNames(dir.entries, sub);
      ghost var whole := MoveChildrenUp(dir.entries, dir.denied, sub, names);
      ghost var out: seq<Event> := [];
      var i := 0;
      while i < |names|
        invariant 0 <= i <= |names|
        invariant sink.events == old(sink.events) + out
        invariant whole.tree == MoveChildrenUp(dir.entries, dir.denied, sub, names[i..]).tree
        invariant whole.out == out + MoveChildrenUp(dir.entries, dir.denied, sub, names[i..]).out
      {
        assert names[i..][0] == names[i] && names[i..][1..] == names[i + 1..];
        var m := MoveUp(dir.entries, dir.denied, sub, names[i]);
        var head := if m.err.Some? then [Logged(ResetFailed(names[i], m.err.value))] else [];
        MoveUpStep(dir.entries, dir.denied, sub, names[i..], out, whole);
        AppendAssoc(old(sink.events), out, head);
        sink.events := sink.events + head;
        out := out + head;
        dir.entries := m.tree;
        i := i + 1;
      }
      assert names[i..] == [];
      assert whole.out == out;
      var r := Rmdir(dir.entries, dir.denied, sub);
      var tail := if r.err.Some? then [Logged(RemovalFailed(r.err.value))] else [];
      AppendAssoc(old(sink.events), out, tail);
      sink.events := sink.events + tail;
      dir.entries := r.tree;
    }

    method CreateContainers(dir: Directory) returns (err: Option<Failure>)
      modifies dir
      ensures var s := ProvisionSpec(old(dir.entries), dir.denied, config.categories);
              dir.entries == s.tree && err == s.err
    {
      var cats := config.categories;
      var i := 0;
      while i < |cats|
        invariant 0 <= i <= |cats|
        invariant ProvisionSpec(old(dir.entries), dir.denied, cats) == ProvisionSpec(dir.entries, dir.denied, cats[i..])
      {
        assert cats[i..][0] == cats[i] && cats[i..][1..] == cats[i + 1..];
        var d := MkdirExistOk(dir.entries, dir.denied, cats[i].name);
        if d.err.Some? {
          return d.err;
        }
        var w := WriteInside(d.tree, dir.denied, cats[i].name, MetaName, MetaJson(cats[i]));
        if w.err.Some? {
          dir.entries := w.tree;
          return w.err;
        }
        dir.entries := w.tree;
        i := i + 1;
      }
      assert cats[i..] == [];
      err := None;
    }

    method ProcessFiles(dir: Directory, rules: seq<Rules.Rule>, env: Rules.Env, sink: Sink)
      returns (err: Option<Failure>)
      modifies dir, sink
      ensures var e := ProcessDirSpec(dir.kind, old(dir.entries), dir.denied, config, rules, engine.rules, env);
              dir.entries == e.tree && sink.events == old(sink.events) + e.out && err == e.err
    {
      if dir.kind == Missing {
        return Some(NotFound("."));
      } else if dir.kind == NotADir {
        return Some(NotADirectory("."));
      }
      var names := Listing(dir.entries.Keys);
      ghost var whole := ProcessSweep(dir.entries, dir.denied, config, names, rules, engine.rules, env);
      ghost var out: seq<Event> := [];
      var i := 0;
      while i < |names|
        invariant 0 <= i <= |names|
        invariant sink.events == old(sink.events) + out
        invariant whole.tree == ProcessSweep(dir.entries, dir.denied, config, names[i..], rules, engine.rules, env).tree
        invariant whole.out == out + ProcessSweep(dir.entries, dir.denied, config, names[i..], rules, engine.rules, env).out
        invariant whole.err == ProcessSweep(dir.entries, dir.denied, config, names[i..], rules, engine.rules, env).err
      {
        var name := names[i];
        assert names[i..][0] == name && names[i..][1..] == names[i + 1..];
        ghost var h := ProcessOne(dir.entries, dir.denied, config, name, rules, engine.rules, env);
        ghost var rest := ProcessSweep(h.tree, dir.denied, config, names[i + 1..], rules, engine.rules, env);
        assert ProcessSweep(dir.entries, dir.denied, config, names[i..], rules, engine.rules, env) ==
          if h.err.Some? then h else Rules.Effect(rest.tree, h.out + rest.out, rest.err);
        AppendAssoc(out, h.out, rest.out);
        AppendAssoc(old(sink.events), out, h.out);
        err := ProcessEntry(dir, name, rules, env, sink);
        if err.Some? {
          return;
        }
        out := out + h.out;
        i := i + 1;
      }
      assert names[i..] == [];
      err := None;
    }

    /** One turn of the loop of `_process_files`. */
    method ProcessEntry(dir: Directory, name: string, rules: seq<Rules.Rule>, env: Rules.Env, sink: Sink)
      returns (err: Option<Failure>)
      modifies dir, sink
      ensures var e := ProcessOne(old(dir.entries), dir.denied, config, name, rules, engine.rules, env);
              dir.entries == e.tree && sink.events == old(sink.events) + e.out && err == e.err
    {
      if Skipped(dir.entries, name) {
        return None;
      }
      var cat := DetermineCategory(config, name);
      ghost var m := MoveFileSpec(dir.entries, dir.denied, name, cat);
      ghost var log := if m.err.Some? then [Logged(MoveFailed(name, cat, m.err.value))] else [];
      MoveFile(dir, name, cat, sink);
      if rules == [] {
        return None;
      }
      ghost var a := Rules.ApplyRules(m.tree, dir.denied, name, engine.rules + rules, env);
      AppendAssoc(old(sink.events), log, a.out);
      err := engine.Apply(dir, name, rules, env, sink);
    }

    method MoveFile(dir: Directory, name: string, cat: string, sink: Sink)
      modifies dir, sink
      ensures var s := MoveFileSpec(old(dir.entries), dir.denied, name, cat);
              dir.entries == s.tree &&
              sink.events == old(sink.events) + if s.err.Some? then [Logged(MoveFailed(name, cat, s.err.value))] else []
    {
      var d := MkdirIfAbsent(dir.entries, dir.denied, cat);
      if d.err.Some? {
        sink.events := sink.events + [Logged(MoveFailed(name, cat, d.err.value))];
        return;
      }
      dir.entries := d.tree;
      var m := MoveInto(dir.entries, dir.denied, name, cat, true);
      if m.err.Some? {
        sink.events := sink.events + [Logged(MoveFailed(name, cat, m.err.value))];
        return;
      }
      dir.entries := m.tree;
    }

    /** `stop_monitoring`: the monitor is dropped (its observer threads are
        not modelled). */
    method StopMonitoring()
      modifies this
      ensures monitor == null
    {
      if monitor != null {
        monitor := null;
      }
    }
  }

  // ---------------------------------------------------------------------------
  // Properties: validation

  /** A path that is missing or not a directory is refused before anything
      is reset, created or moved. */
  lemma InvalidPathChangesNothing(kind: PathKind, t: Tree, denied: set<RelPath>, cfg: Config,
                                  rules: seq<Rules.Rule>, engineRules: seq<Rules.Rule>, env: Rules.Env)
    requires kind != IsDir
    ensures OrganizeSpec(kind, t, denied, cfg, rules, engineRules, env) == Rules.Effect(t, [], Some(InvalidDirectory))
  {
  }

  // ---------------------------------------------------------------------------
  // Properties: reset

  lemma {:induction false} MoveChildrenUpKeeps(t: Tree, denied: set<RelPath>, sub: string, names: seq<string>, k: string)
    requires k in t && k != sub
    ensures var p := MoveChildrenUp(t, denied, sub, names); k in p.tree && p.tree[k] == t[k]
    decreases |names|
  {
    if names != [] {
      MoveChildrenUpKeeps(MoveUp(t, denied, sub, names[0]).tree, denied, sub, names[1..], k);
    }
  }

  /** Emptying one folder changes no other top-level entry that existed. */
  lemma EmptyFolderKeeps(t: Tree, denied: set<RelPath>, sub: string, k: string)
    requires k in t && k != sub
    ensures var p := EmptyFolderSpec(t, denied, sub); k in p.tree && p.tree[k] == t[k]
  {
    MoveChildrenUpKeeps(t, denied, sub, ChildNames(t, sub), k);
  }

  lemma {:induction false} ResetSweepKeeps(t: Tree, denied: set<RelPath>, names: seq<string>, k: string)
    requires k in t && (t[k].File? || k == SystemVolumeInformation)
    ensures var p := ResetSweep(t, denied, names); k in p.tree && p.tree[k] == t[k]
    decreases |names|
  {
    if names != [] {
      if ResetsFolder(t, names[0]) {
        EmptyFolderKeeps(t, denied, names[0], k);
        ResetSweepKeeps(EmptyFolderSpec(t, denied, names[0]).tree, denied, names[1..], k);
      } else {
        ResetSweepKeeps(t, denied, names[1..], k);
      }
    }
  }

  /** The reset leaves every top-level file, and the System Volume
      Information folder with all it holds, exactly as they were. */
  lemma ResetKeepsFilesAndSystemFolder(t: Tree, denied: set<RelPath>, k: string)
    requires k in t && (t[k].File? || k == SystemVolumeInformation)
    ensures var p := ResetSpec(t, denied); k in p.tree && p.tree[k] == t[k]
  {
    ResetSweepKeeps(t, denied, Listing(t.Keys), k);
  }

  predicate Distinct(names: seq<string>)
  {
    forall i, j :: 0 <= i < j < |names| ==> names[i] != names[j]
  }

  /** Moving up children whose names are free at the top level and not
      protected: each listed child now sits at the top level, the folder keeps
      only the unlisted ones, and nothing is logged. */
  lemma {:induction false} MoveChildrenUpClean(t: Tree, denied: set<RelPath>, sub: string, names: seq<string>)
    requires IsDirAt(t, sub) && Distinct(names)
    requires forall j :: 0 <= j < |names| ==>
      names[j] in t[sub].children && names[j] !in t && [sub, names[j]] !in denied
    ensures var p := MoveChildrenUp(t, denied, sub, names); p.out == [] && IsDirAt(p.tree, sub)
    ensures var p := MoveChildrenUp(t, denied, sub, names);
      forall k :: k in p.tree[sub].children ==> k in t[sub].children && k !in names
    ensures var p := MoveChildrenUp(t, denied, sub, names);
      forall k :: k in names ==> k in p.tree && p.tree[k] == t[sub].children[k]
    ensures var p := MoveChildrenUp(t, denied, sub, names);
      forall k :: k in t && k != sub ==> k in p.tree && p.tree[k] == t[k]
    ensures var p := MoveChildrenUp(t, denied, sub, names);
      forall k :: k in p.tree ==> k in t || k in names
    decreases |names|
  {
    if names != [] {
      var c := t[sub].children;
      var n := names[0];
      var t1 := MoveUp(t, denied, sub, n).tree;
      var rest := names[1..];
      assert t1 == t[sub := Dir(c - {n})][n := c[n]];
      forall j | 0 <= j < |rest|
        ensures rest[j] in t1[sub].children && rest[j] !in t1 && [sub, rest[j]] !in denied
      {
        assert rest[j] == names[j + 1] && names[j + 1] != names[0];
      }
      forall i, j | 0 <= i < j < |rest| ensures rest[i] != rest[j] {
        assert rest[i] == names[i + 1] && rest[j] == names[j + 1];
      }
      MoveChildrenUpClean(t1, denied, sub, rest);
      assert forall k :: k in names <==> k == n || k in rest;
    }
  }

  lemma MovedAllChildren(t: Tree, denied: set<RelPath>, sub: string)
    requires IsDirAt(t, sub)
    requires forall k :: k in t[sub].children ==> k !in t && [sub, k] !in denied
    ensures var m := MoveChildrenUp(t, denied, sub, ChildNames(t, sub)).tree;
      IsDirAt(m, sub) && m[sub].children == map[] &&
      (forall k :: k in t[sub].children ==> k in m && m[k] == t[sub].children[k]) &&
      (forall k :: k in t && k != sub ==> k in m && m[k] == t[k]) &&
      (forall k :: k in m ==> k in t || k in t[sub].children)
    ensures MoveChildrenUp(t, denied, sub, ChildNames(t, sub)).out == []
  {
    var names := ChildNames(t, sub);
    ListingSpec(t[sub].children.Keys);
    MoveChildrenUpClean(t, denied, sub, names);
  }

  lemma FlattenedTree(t: Tree, m: Tree, sub: string)
    requires IsDirAt(t, sub) && sub in m
    requires forall k :: k in t[sub].children ==> k !in t && k in m && m[k] == t[sub].children[k]
    requires forall k :: k in t && k != sub ==> k in m && m[k] == t[k]
    requires forall k :: k in m ==> k in t || k in t[sub].children
    ensures m - {sub} == (t - {sub}) + t[sub].children
  {
  }

  /** A folder whose children can all move up cleanly is replaced by its
      children: afterwards the top level holds them in its place, and nothing
      is logged. */
  lemma CleanFolderIsFlattened(t: Tree, denied: set<RelPath>, sub: string)
    requires IsDirAt(t, sub) && [sub] !in denied
    requires forall k :: k in t[sub].children ==> k !in t && [sub, k] !in denied
    ensures var p := EmptyFolderSpec(t, denied, sub);
      p.out == [] && p.tree == (t - {sub}) + t[sub].children
  {
    MovedAllChildren(t, denied, sub);
    var m := MoveChildrenUp(t, denied, sub, ChildNames(t, sub)).tree;
    FlattenedTree(t, m, sub);
  }

  predicate IsLogged(out: seq<Event>, line: LogLine)
  {
    exists j :: 0 <= j < |out| && out[j] == Logged(line)
  }

  lemma LoggedInSuffix(a: seq<Event>, b: seq<Event>, line: LogLine)
    requires IsLogged(b, line)
    ensures IsLogged(a + b, line)
  {
    var j :| 0 <= j < |b| && b[j] == Logged(line);
    assert (a + b)[|a| + j] == Logged(line);
  }

  lemma {:induction false} MoveChildrenUpBlocked(t: Tree, denied: set<RelPath>, sub: string, names: seq<string>, c: string)
    requires IsDirAt(t, sub) && c in t[sub].children && c in t
    ensures var p := MoveChildrenUp(t, denied, sub, names);
      IsDirAt(p.tree, sub) && c in p.tree[sub].children && c in p.tree
    ensures c in names ==> IsLogged(MoveChildrenUp(t, denied, sub, names).out, ResetFailed(c, AlreadyExists(c)))
    decreases |names|
  {
    if names != [] {
      var m := MoveUp(t, denied, sub, names[0]);
      MoveChildrenUpBlocked(m.tree, denied, sub, names[1..], c);
      var rest := MoveChildrenUp(m.tree, denied, sub, names[1..]);
      var head := if m.err.Some? then [Logged(ResetFailed(names[0], m.err.value))] else [];
      if names[0] == c {
        assert m.err == Some(AlreadyExists(c));
        assert (head + rest.out)[0] == Logged(ResetFailed(c, AlreadyExists(c)));
      } else if c in names {
        assert c in names[1..];
        LoggedInSuffix(head, rest.out, ResetFailed(c, AlreadyExists(c)));
      }
    }
  }

  /** A child whose name is already taken at the top level cannot move up, so
      its folder is never removed: both refusals are logged. After a first
      organise every container holds a `.meta`; on the next reset the first
      container's `.meta` reaches the top level, and every later container
      keeps its own and stays. */
  lemma TakenNameKeepsFolder(t: Tree, denied: set<RelPath>, sub: string, c: string)
    requires IsDirAt(t, sub) && c in t[sub].children && c in t
    ensures var p := EmptyFolderSpec(t, denied, sub);
      IsDirAt(p.tree, sub) && c in p.tree[sub].children &&
      IsLogged(p.out, ResetFailed(c, AlreadyExists(c))) &&
      p.out[|p.out| - 1] == Logged(RemovalFailed(NotEmpty(sub)))
  {
    var names := ChildNames(t, sub);
    ListingSpec(t[sub].children.Keys);
    MoveChildrenUpBlocked(t, denied, sub, names, c);
    var moved := MoveChildrenUp(t, denied, sub, names);
    var p := EmptyFolderSpec(t, denied, sub);
    assert p.out == moved.out + [Logged(RemovalFailed(NotEmpty(sub)))];
    var j :| 0 <= j < |moved.out| && moved.out[j] == Logged(ResetFailed(c, AlreadyExists(c)));
    assert p.out[j] == moved.out[j];
  }

  /** Each listed child of the folder, clashing, locked or free, ends up
      at the top level unchanged, or its refusal is logged: a refused move
      does not stop the loop. */
  lemma {:induction false} MoveChildrenUpEach(t: Tree, denied: set<RelPath>, sub: string, names: seq<string>, c: string)
    requires IsDirAt(t, sub) && c in names && c in t[sub].children
    ensures var p := MoveChildrenUp(t, denied, sub, names);
      (c != sub && c in p.tree && p.tree[c] == t[sub].children[c]) ||
      exists f :: IsLogged(p.out, ResetFailed(c, f))
    decreases |names|
  {
    var n := names[0];
    var m := MoveUp(t, denied, sub, n);
    var head := if m.err.Some? then [Logged(ResetFailed(n, m.err.value))] else [];
    var rest := MoveChildrenUp(m.tree, denied, sub, names[1..]);
    if n == c {
      if m.err.Some? {
        assert (head + rest.out)[0] == Logged(ResetFailed(c, m.err.value));
      } else {
        MoveChildrenUpKeeps(m.tree, denied, sub, names[1..], c);
      }
    } else {
      assert c in names[1..];
      assert IsDirAt(m.tree, sub) && c in m.tree[sub].children && m.tree[sub].children[c] == t[sub].children[c];
      MoveChildrenUpEach(m.tree, denied, sub, names[1..], c);
      if exists f :: IsLogged(rest.out, ResetFailed(c, f)) {
        var f :| IsLogged(rest.out, ResetFailed(c, f));
        LoggedInSuffix(head, rest.out, ResetFailed(c, f));
      }
    }
  }

  /** Emptying a folder moves every child of it to the top level unchanged,
      or logs why that child could not move; the folder's own removal does
      not take a moved child with it. */
  lemma EmptyFolderMovesEachChild(t: Tree, denied: set<RelPath>, sub: string, c: string)
    requires IsDirAt(t, sub) && c in t[sub].children
    ensures var p := EmptyFolderSpec(t, denied, sub);
      (c in p.tree && p.tree[c] == t[sub].children[c]) || exists f :: IsLogged(p.out, ResetFailed(c, f))
  {
    var names := ChildNames(t, sub);
    ListingSpec(t[sub].children.Keys);
    MoveChildrenUpEach(t, denied, sub, names, c);
    var moved := MoveChildrenUp(t, denied, sub, names);
    var r := Rmdir(moved.tree, denied, sub);
    var tail := if r.err.Some? then [Logged(RemovalFailed(r.err.value))] else [];
    if exists f :: IsLogged(moved.out, ResetFailed(c, f)) {
      var f :| IsLogged(moved.out, ResetFailed(c, f));
      LoggedInPrefix(moved.out, tail, ResetFailed(c, f));
    }
  }

  lemma LoggedInPrefix(a: seq<Event>, b: seq<Event>, line: LogLine)
    requires IsLogged(a, line)
    ensures IsLogged(a + b, line)
  {
    var j :| 0 <= j < |a| && a[j] == Logged(line);
    assert (a + b)[j] == Logged(line);
  }

  /** Moving children up keeps the folder a directory and brings no name to
      the top level that was not there or among its children. */
  lemma {:induction false} MoveChildrenUpFrame(t: Tree, denied: set<RelPath>, sub: string, names: seq<string>)
    requires IsDirAt(t, sub)
    ensures var p := MoveChildrenUp(t, denied, sub, names);
      IsDirAt(p.tree, sub) && forall x :: x in p.tree ==> x in t || x in t[sub].children
    decreases |names|
  {
    if names != [] {
      var m := MoveUp(t, denied, sub, names[0]);
      assert m.tree[sub].children.Keys <= t[sub].children.Keys;
      MoveChildrenUpFrame(m.tree, denied, sub, names[1..]);
    }
  }

  /** A folder's turn of the reset ends with the folder gone, or with its
      removal refused and logged: it still holds something, or it is
      protected. */
  lemma EmptyFolderRemoves(t: Tree, denied: set<RelPath>, sub: string)
    requires IsDirAt(t, sub)
    ensures var p := EmptyFolderSpec(t, denied, sub);
      sub !in p.tree || IsLogged(p.out, RemovalFailed(NotEmpty(sub))) ||
      IsLogged(p.out, RemovalFailed(PermissionDenied(sub)))
  {
    var moved := MoveChildrenUp(t, denied, sub, ChildNames(t, sub));
    MoveChildrenUpFrame(t, denied, sub, ChildNames(t, sub));
    var r := Rmdir(moved.tree, denied, sub);
    if r.err.Some? {
      var p := EmptyFolderSpec(t, denied, sub);
      assert p.out[|moved.out|] == Logged(RemovalFailed(r.err.value));
    }
  }

  /** Emptying a folder that does not hold `k` does not bring `k` back. */
  lemma EmptyFolderAbsent(t: Tree, denied: set<RelPath>, sub: string, k: string)
    requires IsDirAt(t, sub) && k !in t && k !in t[sub].children
    ensures k !in EmptyFolderSpec(t, denied, sub).tree
  {
    MoveChildrenUpFrame(t, denied, sub, ChildNames(t, sub));
  }

  /** Once `k` is gone, the rest of the sweep brings it back only by moving
      up a child of that name out of a later folder; `t0` is the snapshot,
      which still holds every folder whose turn has not come. */
  lemma {:induction false} ResetSweepAbsent(t: Tree, t0: Tree, denied: set<RelPath>, names: seq<string>, k: string)
    requires k !in t && Distinct(names)
    requires forall j :: j in names ==> j in t && j in t0 && t[j] == t0[j]
    ensures k !in ResetSweep(t, denied, names).tree ||
      exists j :: j in names && ResetsFolder(t0, j) && k in t0[j].children
    decreases |names|
  {
    if names != [] {
      var n := names[0];
      var rest := names[1..];
      assert Distinct(rest) by {
        forall a, b | 0 <= a < b < |rest| ensures rest[a] != rest[b] {
          assert rest[a] == names[a + 1] && rest[b] == names[b + 1];
        }
      }
      if ResetsFolder(t, n) && k in t[n].children {
        assert ResetsFolder(t0, n) && k in t0[n].children;
      } else {
        var h := if ResetsFolder(t, n) then EmptyFolderSpec(t, denied, n) else Pass(t, []);
        if ResetsFolder(t, n) {
          EmptyFolderAbsent(t, denied, n, k);
        }
        forall j | j in rest ensures j in h.tree && h.tree[j] == t0[j] {
          var a :| 0 <= a < |rest| && rest[a] == j;
          assert names[a + 1] == j && names[0] != names[a + 1];
          if ResetsFolder(t, n) {
            EmptyFolderKeeps(t, denied, n, j);
          }
        }
        ResetSweepAbsent(h.tree, t0, denied, rest, k);
      }
    }
  }

  /** The sweep over a listing taken from the snapshot `t0`: every folder
      it resets is gone at the end, or its removal failure is logged, or a
      later folder held a child of the same name, which moved up into the
      freed name. */
  lemma {:induction false} ResetSweepClearsOne(t: Tree, t0: Tree, denied: set<RelPath>, names: seq<string>, k: string)
    requires k in names && ResetsFolder(t0, k) && Distinct(names)
    requires forall j :: j in names ==> j in t && j in t0 && t[j] == t0[j]
    ensures var p := ResetSweep(t, denied, names);
      k !in p.tree || IsLogged(p.out, RemovalFailed(NotEmpty(k))) ||
      IsLogged(p.out, RemovalFailed(PermissionDenied(k))) ||
      exists j :: j in names && ResetsFolder(t0, j) && k in t0[j].children
    decreases |names|
  {
    var n := names[0];
    var rest := names[1..];
    assert Distinct(rest) by {
      forall a, b | 0 <= a < b < |rest| ensures rest[a] != rest[b] {
        assert rest[a] == names[a + 1] && rest[b] == names[b + 1];
      }
    }
    var h := if ResetsFolder(t, n) then EmptyFolderSpec(t, denied, n) else Pass(t, []);
    forall j | j in rest ensures j in h.tree && h.tree[j] == t0[j] && j != n {
      var a :| 0 <= a < |rest| && rest[a] == j;
      assert names[a + 1] == j && names[0] != names[a + 1];
      if ResetsFolder(t, n) {
        EmptyFolderKeeps(t, denied, n, j);
      }
    }
    var tail := ResetSweep(h.tree, denied, rest);
    if n == k {
      EmptyFolderRemoves(t, denied, k);
      if k !in h.tree {
        ResetSweepAbsent(h.tree, t0, denied, rest, k);
      } else if IsLogged(h.out, RemovalFailed(NotEmpty(k))) {
        LoggedInPrefix(h.out, tail.out, RemovalFailed(NotEmpty(k)));
      } else {
        LoggedInPrefix(h.out, tail.out, RemovalFailed(PermissionDenied(k)));
      }
    } else {
      assert k in rest;
      ResetSweepClearsOne(h.tree, t0, denied, rest, k);
      if IsLogged(tail.out, RemovalFailed(NotEmpty(k))) {
        LoggedInSuffix(h.out, tail.out, RemovalFailed(NotEmpty(k)));
      } else if IsLogged(tail.out, RemovalFailed(PermissionDenied(k))) {
        LoggedInSuffix(h.out, tail.out, RemovalFailed(PermissionDenied(k)));
      }
    }
  }

  /** Every top-level folder but System Volume Information is gone after the
      reset, unless its removal failure is logged, or some top-level folder
      held a child of the same name that took its place. */
  lemma ResetClearsFolders(t: Tree, denied: set<RelPath>, k: string)
    requires ResetsFolder(t, k)
    ensures var p := ResetSpec(t, denied);
      k !in p.tree || IsLogged(p.out, RemovalFailed(NotEmpty(k))) ||
      IsLogged(p.out, RemovalFailed(PermissionDenied(k))) ||
      exists j :: ResetsFolder(t, j) && k in t[j].children
  {
    ListingSpec(t.Keys);
    ResetSweepClearsOne(t, t, denied, Listing(t.Keys), k);
  }

  // ---------------------------------------------------------------------------
  // Properties: containers

  /** Provisioning touches only the entries named like a category. */
  lemma {:induction false} ProvisionKeepsOthers(t: Tree, denied: set<RelPath>, cats: seq<Category>, k: string)
    requires k in t
    requires forall i :: 0 <= i < |cats| ==> cats[i].name != k
    ensures var s := ProvisionSpec(t, denied, cats); k in s.tree && s.tree[k] == t[k]
    decreases |cats|
  {
    if cats != [] {
      var d := MkdirExistOk(t, denied, cats[0].name);
      if d.err.None? {
        var w := WriteInside(d.tree, denied, cats[0].name, MetaName, MetaJson(cats[0]));
        if w.err.None? {
          ProvisionKeepsOthers(w.tree, denied, cats[1..], k);
        }
      }
    }
  }

  /** When provisioning succeeds every category has its container, holding a
      `.meta` with that category's colour and icon. */
  lemma {:induction false} ProvisionEstablishes(t: Tree, denied: set<RelPath>, cats: seq<Category>)
    requires UniqueNames(cats)
    ensures var s := ProvisionSpec(t, denied, cats);
      s.err.None? ==> forall i :: 0 <= i < |cats| ==> HasContainer(s.tree, cats[i])
    decreases |cats|
  {
    var s := ProvisionSpec(t, denied, cats);
    if cats != [] && s.err.None? {
      var c := cats[0];
      var d := MkdirExistOk(t, denied, c.name);
      var w := WriteInside(d.tree, denied, c.name, MetaName, MetaJson(c));
      var rest := cats[1..];
      assert s == ProvisionSpec(w.tree, denied, rest);
      assert HasContainer(w.tree, c);
      forall i | 0 <= i < |rest| ensures rest[i].name != c.name {
        assert rest[i] == cats[i + 1];
      }
      ProvisionKeepsOthers(w.tree, denied, rest, c.name);
      ProvisionEstablishes(w.tree, denied, rest);
      forall i | 0 <= i < |cats| ensures HasContainer(s.tree, cats[i]) {
        if i > 0 { assert cats[i] == rest[i - 1]; }
      }
    }
  }

  /** An existing container keeps everything it already holds except its
      `.meta`, which is rewritten. */
  lemma {:induction false} ProvisionKeepsChildren(t: Tree, denied: set<RelPath>, cats: seq<Category>,
                                                  k: string, child: string)
    requires IsDirAt(t, k) && child in t[k].children && child != MetaName
    ensures var s := ProvisionSpec(t, denied, cats);
      IsDirAt(s.tree, k) && child in s.tree[k].children && s.tree[k].children[child] == t[k].children[child]
    decreases |cats|
  {
    if cats != [] {
      var d := MkdirExistOk(t, denied, cats[0].name);
      if d.err.None? {
        var w := WriteInside(d.tree, denied, cats[0].name, MetaName, MetaJson(cats[0]));
        if w.err.None? {
          ProvisionKeepsChildren(w.tree, denied, cats[1..], k, child);
        }
      }
    }
  }

  /** A top-level file named like a category makes `mkdir(exist_ok=True)`
      raise: provisioning fails and the file is kept. */
  lemma {:induction false} ProvisionFailsOnFile(t: Tree, denied: set<RelPath>, cats: seq<Category>, i: nat)
    requires i < |cats| && IsFileAt(t, cats[i].name)
    requires forall j :: 0 <= j < i ==> cats[j].name != cats[i].name
    ensures var s := ProvisionSpec(t, denied, cats);
      s.err.Some? && cats[i].name in s.tree && s.tree[cats[i].name] == t[cats[i].name]
    decreases |cats|
  {
    var k := cats[i].name;
    var d := MkdirExistOk(t, denied, cats[0].name);
    if i > 0 && d.err.None? {
      var w := WriteInside(d.tree, denied, cats[0].name, MetaName, MetaJson(cats[0]));
      if w.err.None? {
        forall j | 0 <= j < i - 1 ensures cats[1..][j].name != cats[1..][i - 1].name {
          assert cats[1..][j] == cats[j + 1];
        }
        ProvisionFailsOnFile(w.tree, denied, cats[1..], i - 1);
      }
    }
  }

  /** A category can be provisioned: its container exists (with no folder
      called `.meta`) or can be created, and its `.meta` can be written. */
  predicate Provisionable(t: Tree, denied: set<RelPath>, c: Category)
  {
    ((IsDirAt(t, c.name) && !IsDirAt(t[c.name].children, MetaName)) || (c.name !in t && [c.name] !in denied))
    && [c.name, MetaName] !in denied
  }

  /** Provisioning succeeds when every category can be provisioned. */
  lemma {:induction false} ProvisionSucceeds(t: Tree, denied: set<RelPath>, cats: seq<Category>)
    requires UniqueNames(cats)
    requires forall i :: 0 <= i < |cats| ==> Provisionable(t, denied, cats[i])
    ensures ProvisionSpec(t, denied, cats).err.None?
    decreases |cats|
  {
    if cats != [] {
      var c := cats[0];
      var d := MkdirExistOk(t, denied, c.name);
      var w := WriteInside(d.tree, denied, c.name, MetaName, MetaJson(c));
      var rest := cats[1..];
      forall i | 0 <= i < |rest| ensures Provisionable(w.tree, denied, rest[i]) {
        assert rest[i] == cats[i + 1];
        assert Provisionable(t, denied, cats[i + 1]);
        assert rest[i].name != c.name;
      }
      forall i, j | 0 <= i < j < |rest| ensures rest[i].name != rest[j].name {
        assert rest[i] == cats[i + 1] && rest[j] == cats[j + 1];
      }
      ProvisionSucceeds(w.tree, denied, rest);
    }
  }

  // ---------------------------------------------------------------------------
  // Properties: the file pass without rules

  /** `n` sits in the container `cat` with the contents `v`. */
  predicate Filed(t: Tree, cat: string, n: string, v: Entry)
  {
    IsDirAt(t, cat) && n in t[cat].children && t[cat].children[n] == v
  }

  /** A failed move of `n` into `cat` is logged somewhere in `out`. */
  predicate MoveLogged(out: seq<Event>, n: string, cat: string)
  {
    exists j :: 0 <= j < |out| && out[j].Logged? && out[j].line.MoveFailed? &&
      out[j].line.name == n && out[j].line.dest == cat
  }

  lemma MoveLoggedInSuffix(a: seq<Event>, b: seq<Event>, n: string, cat: string)
    requires MoveLogged(b, n, cat)
    ensures MoveLogged(a + b, n, cat)
  {
    var j :| 0 <= j < |b| && b[j].Logged? && b[j].line.MoveFailed? && b[j].line.name == n && b[j].line.dest == cat;
    assert (a + b)[|a| + j] == b[j];
  }

  lemma MoveLoggedInPrefix(a: seq<Event>, b: seq<Event>, n: string, cat: string)
    requires MoveLogged(a, n, cat)
    ensures MoveLogged(a + b, n, cat)
  {
    var j :| 0 <= j < |a| && a[j].Logged? && a[j].line.MoveFailed? && a[j].line.name == n && a[j].line.dest == cat;
    assert (a + b)[j] == a[j];
  }

  /** A turn on another name leaves a top-level file alone: at worst the
      file is the destination the other file fails to enter. */
  lemma ProcessOneKeepsFile(t: Tree, denied: set<RelPath>, cfg: Config, name: string,
                            engineRules: seq<Rules.Rule>, env: Rules.Env, k: string)
    requires IsFileAt(t, k) && (k != name || StartsWith(k, ".") || Vault.IsEncrypted(k))
    ensures var e := ProcessOne(t, denied, cfg, name, [], engineRules, env); k in e.tree && e.tree[k] == t[k]
  {
    if !Skipped(t, name) {
      MoveFileOutcome(t, denied, name, DetermineCategory(cfg, name));
    }
  }

  /** A turn on another name leaves a filed file in its container. */
  lemma ProcessOneKeepsFiled(t: Tree, denied: set<RelPath>, cfg: Config, name: string,
                             engineRules: seq<Rules.Rule>, env: Rules.Env, cat: string, n: string, v: Entry)
    requires Filed(t, cat, n, v) && n != name
    ensures Filed(ProcessOne(t, denied, cfg, name, [], engineRules, env).tree, cat, n, v)
  {
    if !Skipped(t, name) {
      MoveFileKeepsFiled(t, denied, name, DetermineCategory(cfg, name), cat, n, v);
    }
  }

  /** Moving another top-level file leaves a filed file where it is. */
  lemma MoveFileKeepsFiled(t: Tree, denied: set<RelPath>, name: string, dest: string, cat: string, n: string, v: Entry)
    requires Filed(t, cat, n, v) && n != name && name != cat
    ensures Filed(MoveFileSpec(t, denied, name, dest).tree, cat, n, v)
  {
    var d := MkdirIfAbsent(t, denied, dest);
    assert Filed(d.tree, cat, n, v);
  }

  /** The turn of a movable file files it in its category or logs why not. */
  lemma ProcessOneMoves(t: Tree, denied: set<RelPath>, cfg: Config, n: string,
                        engineRules: seq<Rules.Rule>, env: Rules.Env)
    requires IsFileAt(t, n) && !StartsWith(n, ".") && !Vault.IsEncrypted(n)
    ensures var e := ProcessOne(t, denied, cfg, n, [], engineRules, env);
      var cat := DetermineCategory(cfg, n);
      Filed(e.tree, cat, n, t[n]) || MoveLogged(e.out, n, cat)
  {
    var cat := DetermineCategory(cfg, n);
    MoveFileOutcome(t, denied, n, cat);
    var e := ProcessOne(t, denied, cfg, n, [], engineRules, env);
    if MoveFileSpec(t, denied, n, cat).err.Some? {
      assert e.out[0].line == MoveFailed(n, cat, MoveFileSpec(t, denied, n, cat).err.value);
    }
  }

  lemma {:induction false} ProcessSweepKeepsFile(t: Tree, denied: set<RelPath>, cfg: Config, names: seq<string>,
                                                 engineRules: seq<Rules.Rule>, env: Rules.Env, k: string)
    requires IsFileAt(t, k) && (k !in names || StartsWith(k, ".") || Vault.IsEncrypted(k))
    ensures var e := ProcessSweep(t, denied, cfg, names, [], engineRules, env); k in e.tree && e.tree[k] == t[k]
    decreases |names|
  {
    if names != [] {
      ProcessOneKeepsFile(t, denied, cfg, names[0], engineRules, env, k);
      var h := ProcessOne(t, denied, cfg, names[0], [], engineRules, env);
      ProcessSweepKeepsFile(h.tree, denied, cfg, names[1..], engineRules, env, k);
    }
  }

  lemma {:induction false} ProcessSweepKeepsFiled(t: Tree, denied: set<RelPath>, cfg: Config, names: seq<string>,
                                                  engineRules: seq<Rules.Rule>, env: Rules.Env,
                                                  cat: string, n: string, v: Entry)
    requires Filed(t, cat, n, v) && n !in names
    ensures Filed(ProcessSweep(t, denied, cfg, names, [], engineRules, env).tree, cat, n, v)
    decreases |names|
  {
    if names != [] {
      ProcessOneKeepsFiled(t, denied, cfg, names[0], engineRules, env, cat, n, v);
      var h := ProcessOne(t, denied, cfg, names[0], [], engineRules, env);
      ProcessSweepKeepsFiled(h.tree, denied, cfg, names[1..], engineRules, env, cat, n, v);
    }
  }

  lemma {:induction false} ProcessSweepMoves(t: Tree, denied: set<RelPath>, cfg: Config, names: seq<string>,
                                             engineRules: seq<Rules.Rule>, env: Rules.Env, n: string)
    requires Distinct(names) && n in names
    requires IsFileAt(t, n) && !StartsWith(n, ".") && !Vault.IsEncrypted(n)
    ensures var e := ProcessSweep(t, denied, cfg, names, [], engineRules, env);
      var cat := DetermineCategory(cfg, n);
      Filed(e.tree, cat, n, t[n]) || MoveLogged(e.out, n, cat)
    decreases |names|
  {
    var cat := DetermineCategory(cfg, n);
    var h := ProcessOne(t, denied, cfg, names[0], [], engineRules, env);
    var rest := names[1..];
    var r := ProcessSweep(h.tree, denied, cfg, rest, [], engineRules, env);
    assert ProcessSweep(t, denied, cfg, names, [], engineRules, env) == Rules.Effect(r.tree, h.out + r.out, r.err);
    if names[0] == n {
      assert n !in rest by {
        forall j | 0 <= j < |rest| ensures rest[j] != n { assert rest[j] == names[j + 1]; }
      }
      ProcessOneMoves(t, denied, cfg, n, engineRules, env);
      if Filed(h.tree, cat, n, t[n]) {
        ProcessSweepKeepsFiled(h.tree, denied, cfg, rest, engineRules, env, cat, n, t[n]);
      } else {
        MoveLoggedInPrefix(h.out, r.out, n, cat);
      }
    } else {
      assert n in rest;
      assert Distinct(rest) by {
        forall i, j | 0 <= i < j < |rest| ensures rest[i] != rest[j] {
          assert rest[i] == names[i + 1] && rest[j] == names[j + 1];
        }
      }
      ProcessOneKeepsFile(t, denied, cfg, names[0], engineRules, env, n);
      ProcessSweepMoves(h.tree, denied, cfg, rest, engineRules, env, n);
      if !Filed(r.tree, cat, n, t[n]) {
        MoveLoggedInSuffix(h.out, r.out, n, cat);
      }
    }
  }

  /** Without rules, every top-level file that is neither hidden nor
      encrypted ends in the container of its category, unchanged, or the
      failure to move it there is logged. */
  lemma ProcessMovesEveryFile(t: Tree, denied: set<RelPath>, cfg: Config,
                              engineRules: seq<Rules.Rule>, env: Rules.Env, n: string)
    requires IsFileAt(t, n) && !StartsWith(n, ".") && !Vault.IsEncrypted(n)
    ensures var e := ProcessSpec(t, denied, cfg, [], engineRules, env);
      var cat := DetermineCategory(cfg, n);
      e.err.None? && (Filed(e.tree, cat, n, t[n]) || MoveLogged(e.out, n, cat))
  {
    ListingSpec(t.Keys);
    ProcessSweepMoves(t, denied, cfg, Listing(t.Keys), engineRules, env, n);
  }

  /** Hidden and encrypted files are never moved or changed by the file pass. */
  lemma ProcessSkipsHiddenAndEncrypted(t: Tree, denied: set<RelPath>, cfg: Config,
                                       engineRules: seq<Rules.Rule>, env: Rules.Env, k: string)
    requires IsFileAt(t, k) && (StartsWith(k, ".") || Vault.IsEncrypted(k))
    ensures var e := ProcessSpec(t, denied, cfg, [], engineRules, env); k in e.tree && e.tree[k] == t[k]
  {
    ProcessSweepKeepsFile(t, denied, cfg, Listing(t.Keys), engineRules, env, k);
  }

  // ---------------------------------------------------------------------------
  // Properties: the file pass with rules

  /** A rule pass on a name that is no longer there stops at the first
      catch-all encrypt rule or size condition, changing nothing. */
  lemma StaleNameStopsRules(m: Tree, denied: set<RelPath>, n: string, env: Rules.Env,
                            password: Option<string>, lo: int, action: Option<Rules.Action>)
    requires n !in m
    ensures Rules.ApplyRules(m, denied, n, [Rules.Rule(None, Some(Rules.Action(Some("encrypt"), None, password, None)))], env)
      == Rules.Effect(m, [], Some(NotFound(n)))
    ensures Rules.ApplyRules(m, denied, n, [Rules.Rule(Some(Rules.Conditions(None, None, Some(lo), None)), action)], env)
      == Rules.Effect(m, [], Some(NotFound(n)))
  {
    assert Size(m, n) == None;
  }

  /** Rules are given the path the file had before it was moved. Once the
      move has succeeded, a catch-all encrypt rule fails to read the file and
      a size condition fails to stat it: the turn raises FileNotFoundError
      and the moved file stays in its container, unencrypted. */
  lemma RulesSeeThePreMovePath(t: Tree, denied: set<RelPath>, cfg: Config, n: string, env: Rules.Env,
                               password: Option<string>, lo: int, action: Option<Rules.Action>)
    requires IsFileAt(t, n) && !StartsWith(n, ".") && !Vault.IsEncrypted(n)
    requires MoveFileSpec(t, denied, n, DetermineCategory(cfg, n)).err.None?
    ensures var m := MoveFileSpec(t, denied, n, DetermineCategory(cfg, n));
      var encrypt := Rules.Rule(None, Some(Rules.Action(Some("encrypt"), None, password, None)));
      ProcessOne(t, denied, cfg, n, [encrypt], [], env) == Rules.Effect(m.tree, [], Some(NotFound(n)))
    ensures var m := MoveFileSpec(t, denied, n, DetermineCategory(cfg, n));
      var sized := Rules.Rule(Some(Rules.Conditions(None, None, Some(lo), None)), action);
      ProcessOne(t, denied, cfg, n, [sized], [], env) == Rules.Effect(m.tree, [], Some(NotFound(n)))
  {
    var m := MoveFileSpec(t, denied, n, DetermineCategory(cfg, n));
    MovedTurnAppliesRules(t, denied, cfg, n, [Rules.Rule(None, Some(Rules.Action(Some("encrypt"), None, password, None)))], env);
    MovedTurnAppliesRules(t, denied, cfg, n, [Rules.Rule(Some(Rules.Conditions(None, None, Some(lo), None)), action)], env);
    StaleNameStopsRules(m.tree, denied, n, env, password, lo, action);
  }

  /** After a successful move, a turn with rules and no loaded rules is the
      rule pass on the moved-from name, with nothing logged before it. */
  lemma MovedTurnAppliesRules(t: Tree, denied: set<RelPath>, cfg: Config, n: string,
                              rules: seq<Rules.Rule>, env: Rules.Env)
    requires !Skipped(t, n) && rules != []
    requires MoveFileSpec(t, denied, n, DetermineCategory(cfg, n)).err.None?
    ensures var m := MoveFileSpec(t, denied, n, DetermineCategory(cfg, n));
      n !in m.tree && ProcessOne(t, denied, cfg, n, rules, [], env) == Rules.ApplyRules(m.tree, denied, n, rules, env)
  {
    var m := MoveFileSpec(t, denied, n, DetermineCategory(cfg, n));
    assert n !in m.tree by { MoveFileOutcome(t, denied, n, DetermineCategory(cfg, n)); }
    var a := Rules.ApplyRules(m.tree, denied, n, [] + rules, env);
    assert ProcessOne(t, denied, cfg, n, rules, [], env) == Rules.Effect(a.tree, [] + a.out, a.err);
    assert [] + rules == rules && [] + a.out == a.out;
  }

  /** A directory named like a category keeps what it held and receives the
      file; a file of the same name already in it is replaced. */
  lemma MoveIntoExistingContainer(t: Tree, denied: set<RelPath>, n: string, cat: string)
    requires IsFileAt(t, n) && IsDirAt(t, cat) && n != cat && [n] !in denied
    requires n in t[cat].children ==> t[cat].children[n].File?
    ensures var s := MoveFileSpec(t, denied, n, cat);
      s.err.None? && s.tree == (t - {n})[cat := Dir(t[cat].children[n := t[n]])]
  {
  }

  /** A missing container is created on demand. */
  lemma MoveCreatesContainer(t: Tree, denied: set<RelPath>, n: string, cat: string)
    requires IsFileAt(t, n) && cat !in t && [n] !in denied && [cat] !in denied
    ensures var s := MoveFileSpec(t, denied, n, cat);
      s.err.None? && s.tree == (t - {n})[cat := Dir(map[n := t[n]])]
  {
    assert n != cat;
  }

  /** Only log lines are emitted by a pass without rules. */
  predicate OnlyLogs(out: seq<Event>)
  {
    forall j :: 0 <= j < |out| ==> out[j].Logged?
  }

  lemma {:induction false} ProcessSweepOnlyLogs(t: Tree, denied: set<RelPath>, cfg: Config, names: seq<string>,
                                                engineRules: seq<Rules.Rule>, env: Rules.Env)
    ensures OnlyLogs(ProcessSweep(t, denied, cfg, names, [], engineRules, env).out)
    decreases |names|
  {
    if names != [] {
      var h := ProcessOne(t, denied, cfg, names[0], [], engineRules, env);
      ProcessSweepOnlyLogs(h.tree, denied, cfg, names[1..], engineRules, env);
      var r := ProcessSweep(h.tree, denied, cfg, names[1..], [], engineRules, env);
      assert OnlyLogs(h.out) by { ProcessOneOnlyLogs(t, denied, cfg, names[0], engineRules, env); }
      OnlyLogsAppend(h.out, r.out);
    }
  }

  lemma ProcessOneOnlyLogs(t: Tree, denied: set<RelPath>, cfg: Config, name: string,
                           engineRules: seq<Rules.Rule>, env: Rules.Env)
    ensures OnlyLogs(ProcessOne(t, denied, cfg, name, [], engineRules, env).out)
  {
  }

  lemma OnlyLogsAppend(a: seq<Event>, b: seq<Event>)
    requires OnlyLogs(a) && OnlyLogs(b)
    ensures OnlyLogs(a + b)
  {
    forall j | 0 <= j < |a + b| ensures (a + b)[j].Logged? {
      if j >= |a| { assert (a + b)[j] == b[j - |a|]; }
    }
  }

  /** Without rules the file pass never raises on a directory, and it only
      logs; on anything else it raises and does nothing. */
  lemma ProcessDirWithoutRules(kind: PathKind, t: Tree, denied: set<RelPath>, cfg: Config,
                               engineRules: seq<Rules.Rule>, env: Rules.Env)
    ensures var e := ProcessDirSpec(kind, t, denied, cfg, [], engineRules, env);
      (e.err.None? <==> kind == IsDir) && OnlyLogs(e.out) && (e.err.Some? ==> e.tree == t && e.out == [])
  {
    ProcessSweepOnlyLogs(t, denied, cfg, Listing(t.Keys), engineRules, env);
  }
}
