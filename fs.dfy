/** An abstract filesystem seen from the directory being organised, the
    primitive operations the organiser performs on it (each of which may
    fail), and the output stream of log lines, notifications and callbacks. */
module Fs {
  import opened Base

  datatype Entry = File(data: string) | Dir(children: map<string, Entry>)

  /** The entries of one directory, by name. */
  type Tree = map<string, Entry>

  /** A path relative to the organised directory, one name per component. */
  type RelPath = seq<string>

  /** What a path expected to name a directory actually names. */
  datatype PathKind = Missing | NotADir | IsDir

  /** A directory on disk. `entries` is meaningful when `kind` is `IsDir`;
      `denied` names the paths below it that the operating system refuses to
      read, create, replace or remove (locked or protected files). */
  class Directory {
    const kind: PathKind
    var entries: Tree
    const denied: set<RelPath>

    constructor (kind: PathKind, entries: Tree, denied: set<RelPath>)
      ensures this.kind == kind && this.entries == entries && this.denied == denied
    {
      this.kind := kind;
      this.entries := entries;
      this.denied := denied;
    }
  }

  /** The result of one primitive: the new entries and the exception, if any. */
  datatype Step = Step(tree: Tree, err: Option<Failure>)

  predicate IsDirAt(t: Tree, n: string)
  {
    n in t && t[n].Dir?
  }

  predicate IsFileAt(t: Tree, n: string)
  {
    n in t && t[n].File?
  }

  /** `st_size`: the length of a file, 0 for a directory, nothing when absent. */
  function Size(t: Tree, n: string): (r: Option<nat>)
    ensures r.None? <==> n !in t
    ensures IsFileAt(t, n) ==> r == Some(|t[n].data|)
  {
    if n !in t then None
    else match t[n]
      case File(data) => Some(|data|)
      case Dir(_) => Some(0)
  }

  /** `shutil.move(directory/sub/child, directory)`: the child leaves `sub`
      for the top level; the move is refused when the top level already has
      an entry of that name. */
  function MoveUp(t: Tree, denied: set<RelPath>, sub: string, child: string): (s: Step)
    ensures s.err.Some? ==> s.tree == t
    ensures s.err.None? <==>
      IsDirAt(t, sub) && child in t[sub].children && child !in t && [sub, child] !in denied
    ensures s.err.None? ==>
      s.tree == t[sub := Dir(t[sub].children - {child})][child := t[sub].children[child]]
  {
    if !IsDirAt(t, sub) || child !in t[sub].children then Step(t, Some(NotFound(child)))
    else if child in t then Step(t, Some(AlreadyExists(child)))
    else if [sub, child] in denied then Step(t, Some(PermissionDenied(child)))
    else Step(t[sub := Dir(t[sub].children - {child})][child := t[sub].children[child]], None)
  }

  /** `Path.rmdir`: only an empty directory can be removed. */
  function Rmdir(t: Tree, denied: set<RelPath>, sub: string): (s: Step)
    ensures s.err.Some? ==> s.tree == t
    ensures s.err.None? <==> IsDirAt(t, sub) && t[sub].children == map[] && [sub] !in denied
    ensures s.err.None? ==> s.tree == t - {sub}
  {
    if sub !in t then Step(t, Some(NotFound(sub)))
    else if t[sub].File? then Step(t, Some(NotADirectory(sub)))
    else if t[sub].children != map[] then Step(t, Some(NotEmpty(sub)))
    else if [sub] in denied then Step(t, Some(PermissionDenied(sub)))
    else Step(t - {sub}, None)
  }

  /** `Path.mkdir(exist_ok=True)` and `os.makedirs(exist_ok=True)` one level
      deep: an existing directory is kept, an existing file is an error. */
  function MkdirExistOk(t: Tree, denied: set<RelPath>, n: string): (s: Step)
    ensures s.err.Some? ==> s.tree == t
    ensures s.err.None? <==> IsDirAt(t, n) || (n !in t && [n] !in denied)
    ensures s.err.None? ==> IsDirAt(s.tree, n)
    ensures s.err.None? ==> s.tree == if n in t then t else t[n := Dir(map[])]
  {
    if n in t then
      if t[n].Dir? then Step(t, None) else Step(t, Some(AlreadyExists(n)))
    else if [n] in denied then Step(t, Some(PermissionDenied(n)))
    else Step(t[n := Dir(map[])], None)
  }

  /** `if not dest_dir.exists(): dest_dir.mkdir()` — whatever exists under the
      name, file or directory, is left as it is. */
  function MkdirIfAbsent(t: Tree, denied: set<RelPath>, n: string): (s: Step)
    ensures s.err.Some? ==> s.tree == t
    ensures s.err.None? <==> n in t || [n] !in denied
    ensures s.err.None? ==> s.tree == if n in t then t else t[n := Dir(map[])]
  {
    if n in t then Step(t, None)
    else if [n] in denied then Step(t, Some(PermissionDenied(n)))
    else Step(t[n := Dir(map[])], None)
  }

  /** `(directory/container/name).write_text(text)`: creates or truncates
      the file `name` inside the directory `container`. */
  function WriteInside(t: Tree, denied: set<RelPath>, container: string, name: string, text: string): (s: Step)
    ensures s.err.Some? ==> s.tree == t
    ensures s.err.None? <==>
      IsDirAt(t, container) && !IsDirAt(t[container].children, name) && [container, name] !in denied
    ensures s.err.None? ==> s.tree == t[container := Dir(t[container].children[name := File(text)])]
  {
    if container !in t then Step(t, Some(NotFound(container)))
    else if t[container].File? then Step(t, Some(NotADirectory(container)))
    else if IsDirAt(t[container].children, name) then Step(t, Some(IsADirectory(name)))
    else if [container, name] in denied then Step(t, Some(PermissionDenied(name)))
    else Step(t[container := Dir(t[container].children[name := File(text)])], None)
  }

  /** Moving the top-level entry `name` to `dest/name`. With `replace`
      (`shutil.move`) an existing file there is replaced; without it
      (`Path.rename` on Windows) any existing entry there is an error. */
  function MoveInto(t: Tree, denied: set<RelPath>, name: string, dest: string, replace: bool): (s: Step)
    ensures s.err.Some? ==> s.tree == t
    ensures s.err.None? <==>
      name in t && IsDirAt(t, dest) && name != dest && [name] !in denied &&
      (name in t[dest].children ==> replace && t[dest].children[name].File?)
    ensures s.err.None? ==>
      s.tree == (t - {name})[dest := Dir(t[dest].children[name := t[name]])]
  {
    if name !in t || dest !in t then Step(t, Some(NotFound(name)))
    else if t[dest].File? then Step(t, Some(NotADirectory(dest)))
    else if name == dest then Step(t, Some(AlreadyExists(name)))
    else if name in t[dest].children && (!replace || t[dest].children[name].Dir?) then
      Step(t, Some(AlreadyExists(name)))
    else if [name] in denied then Step(t, Some(PermissionDenied(name)))
    else Step((t - {name})[dest := Dir(t[dest].children[name := t[name]])], None)
  }

  /** `open(directory/name, 'rb').read()`. */
  function ReadFile(t: Tree, denied: set<RelPath>, name: string): (r: Result<string>)
    ensures r.Ok? <==> IsFileAt(t, name) && [name] !in denied
    ensures r.Ok? ==> r.value == t[name].data
  {
    if name !in t then Err(NotFound(name))
    else if t[name].Dir? then Err(IsADirectory(name))
    else if [name] in denied then Err(PermissionDenied(name))
    else Ok(t[name].data)
  }

  /** `open(directory/name, 'wb').write(data)`: creates or truncates. */
  function WriteFile(t: Tree, denied: set<RelPath>, name: string, data: string): (s: Step)
    ensures s.err.Some? ==> s.tree == t
    ensures s.err.None? <==> !IsDirAt(t, name) && [name] !in denied
    ensures s.err.None? ==> s.tree == t[name := File(data)]
  {
    if IsDirAt(t, name) then Step(t, Some(IsADirectory(name)))
    else if [name] in denied then Step(t, Some(PermissionDenied(name)))
    else Step(t[name := File(data)], None)
  }

  /** `Path.unlink`: removes a file. */
  function Unlink(t: Tree, denied: set<RelPath>, name: string): (s: Step)
    ensures s.err.Some? ==> s.tree == t
    ensures s.err.None? <==> IsFileAt(t, name) && [name] !in denied
    ensures s.err.None? ==> s.tree == t - {name}
  {
    if name !in t then Step(t, Some(NotFound(name)))
    else if t[name].Dir? then Step(t, Some(IsADirectory(name)))
    else if [name] in denied then Step(t, Some(PermissionDenied(name)))
    else Step(t - {name}, None)
  }

  // ---------------------------------------------------------------------------
  // Output: the logger, the desktop notifications and the caller's callback,
  // as one ordered stream of events.

  datatype LogLine =
    | ResetFailed(name: string, cause: Failure)             // "Reset failed for ..."
    | RemovalFailed(cause: Failure)                         // "Folder removal failed: ..."
    | MoveFailed(name: string, dest: string, cause: Failure) // "Move failed: ... -> ..."

  datatype Event =
    | Logged(line: LogLine)
    | Notified(title: string, message: string)
    | CallbackInvoked(name: string)

  class Sink {
    var events: seq<Event>

    constructor ()
      ensures events == []
    {
      events := [];
    }
  }
}
