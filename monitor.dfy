/** The watch side of modules/file_handler.py: the per-name debounce of
    `FileEventHandler._should_handle`, the three event callbacks, the
    notification protocol of `_handle_file`, and the handler bookkeeping of
    `FileMonitor`. The observer threads are not modelled; an event is a call
    of one callback with the wall-clock time `now` as a parameter. */
module Monitor {
  import opened Base
  import opened Names
  import opened Fs
  import Categories
  import Vault
  import Rules
  import Organizer

  // ---------------------------------------------------------------------------
  // Debounce

  /** Events for the same name closer together than this are dropped. */
  const QuietInterval: real := 5.0

  /** System and hidden files: names starting with "." or "~". */
  predicate Hidden(name: string)
  {
    StartsWith(name, ".") || StartsWith(name, "~")
  }

  /** Whether an event is let through, and the ledger afterwards. */
  datatype Admission = Admission(accept: bool, ledger: map<string, real>)

  /** `_should_handle` on the name `name` at time `now`. The ledger is keyed
      by the bare name and a name never seen counts as handled at time 0. */
  function Admit(ledger: map<string, real>, name: string, now: real): (r: Admission)
    ensures r.accept <==> !Hidden(name) && now - GetOr(ledger, name, 0.0) >= QuietInterval
    ensures r.accept ==> r.ledger == ledger[name := now]
    ensures !r.accept ==> r.ledger == ledger
  {
    if Hidden(name) then Admission(false, ledger)
    else if now - GetOr(ledger, name, 0.0) < QuietInterval then Admission(false, ledger)
    else Admission(true, ledger[name := now])
  }

  /** One call of `_should_handle`: the name of the path and the time read. */
  datatype Arrival = Arrival(name: string, time: real)

  /** The ledger after a run of calls, oldest first. */
  function LedgerAfter(ledger: map<string, real>, arrivals: seq<Arrival>): map<string, real>
    decreases |arrivals|
  {
    if arrivals == [] then ledger
    else
      var last := arrivals[|arrivals| - 1];
      Admit(LedgerAfter(ledger, arrivals[..|arrivals| - 1]), last.name, last.time).ledger
  }

  /** Whether the `j`-th call of a run is let through. */
  predicate AcceptedAt(ledger: map<string, real>, arrivals: seq<Arrival>, j: nat)
    requires j < |arrivals|
  {
    Admit(LedgerAfter(ledger, arrivals[..j]), arrivals[j].name, arrivals[j].time).accept
  }

  /** Entries are added or overwritten, never removed. */
  lemma {:induction false} LedgerOnlyGrows(ledger: map<string, real>, arrivals: seq<Arrival>)
    ensures ledger.Keys <= LedgerAfter(ledger, arrivals).Keys
    decreases |arrivals|
  {
    if arrivals != [] {
      LedgerOnlyGrows(ledger, arrivals[..|arrivals| - 1]);
    }
  }

  /** After the `i`-th call was let through, the ledger holds its time for
      its name until the next call for that name is let through. */
  lemma {:induction false} LedgerHoldsLastAcceptance(ledger: map<string, real>, arrivals: seq<Arrival>, i: nat, k: nat)
    requires i < k <= |arrivals| && AcceptedAt(ledger, arrivals, i)
    requires forall m :: i < m < k && arrivals[m].name == arrivals[i].name ==> !AcceptedAt(ledger, arrivals, m)
    ensures arrivals[i].name in LedgerAfter(ledger, arrivals[..k])
    ensures LedgerAfter(ledger, arrivals[..k])[arrivals[i].name] == arrivals[i].time
    decreases k
  {
    var pre := arrivals[..k];
    assert pre[..k - 1] == arrivals[..k - 1];
    assert pre[k - 1] == arrivals[k - 1];
    if k - 1 > i {
      LedgerHoldsLastAcceptance(ledger, arrivals, i, k - 1);
    }
  }

  /** Two consecutive accepted calls for the same name are at least the
      quiet interval apart. */
  lemma AcceptancesAreSpaced(ledger: map<string, real>, arrivals: seq<Arrival>, i: nat, j: nat)
    requires i < j < |arrivals| && arrivals[i].name == arrivals[j].name
    requires AcceptedAt(ledger, arrivals, i) && AcceptedAt(ledger, arrivals, j)
    requires forall m :: i < m < j && arrivals[m].name == arrivals[i].name ==> !AcceptedAt(ledger, arrivals, m)
    ensures arrivals[j].time - arrivals[i].time >= QuietInterval
  {
    LedgerHoldsLastAcceptance(ledger, arrivals, i, j);
  }

  /** With a clock that never goes back, any two accepted calls for the same
      name are at least the quiet interval apart. */
  lemma {:induction false} AcceptancesAreSpacedOnAClock(ledger: map<string, real>, arrivals: seq<Arrival>, i: nat, j: nat)
    requires forall a, b :: 0 <= a < b < |arrivals| ==> arrivals[a].time <= arrivals[b].time
    requires i < j < |arrivals| && arrivals[i].name == arrivals[j].name
    requires AcceptedAt(ledger, arrivals, i) && AcceptedAt(ledger, arrivals, j)
    ensures arrivals[j].time - arrivals[i].time >= QuietInterval
    decreases j - i
  {
    if exists m :: i < m < j && arrivals[m].name == arrivals[i].name && AcceptedAt(ledger, arrivals, m) {
      var m :| i < m < j && arrivals[m].name == arrivals[i].name && AcceptedAt(ledger, arrivals, m);
      AcceptancesAreSpacedOnAClock(ledger, arrivals, m, j);
    } else {
      AcceptancesAreSpaced(ledger, arrivals, i, j);
    }
  }

  // ---------------------------------------------------------------------------
  // Handling

  /** A path reported by the observer: its parent directory and its name. */
  datatype EventPath = EventPath(parent: Directory, name: string)

  /** A watchdog event; `dest` is meaningful for a move. */
  datatype WatchEvent = WatchEvent(isDirectory: bool, src: EventPath, dest: EventPath)

  /** `_process_files(path.parent, None)` gives no rules, so the rule pass and
      its collaborators are never reached. */
  const Inert: Rules.Env := Rules.Env((pattern: string, name: string) => false,
                                      (key: string, data: string) => data, "",
                                      (message: string, name: string) => Ok(message))

  function OrganizedNotice(name: string): Event
  {
    Notified("File Organized", "File " + name + " was organized")
  }

  function ErrorNotice(name: string, f: Failure): Event
  {
    Notified("Organization Error", "Failed to process " + name + ": " + Describe(f))
  }

  /** What follows the "File Organized" notice: the callback's call if there
      is one and, when that call raises `raised`, the error notice that the
      same `except` arm shows. */
  function CallbackTail(name: string, hasCallback: bool, raised: Option<Failure>): seq<Event>
  {
    if hasCallback then [CallbackInvoked(name)] + (if raised.Some? then [ErrorNotice(name, raised.value)] else [])
    else []
  }

  /** `_handle_file(path)`: re-process the whole parent directory without
      rules; on success notify, then call the callback if there is one; on
      an exception, from the pass or from the callback, notify of the error
      and swallow it. The callback is code outside the model: `raised` is
      what it raises on this call, if anything. */
  function HandleSpec(kind: PathKind, t: Tree, denied: set<RelPath>, cfg: Categories.Config,
                      engineRules: seq<Rules.Rule>, name: string, hasCallback: bool,
                      raised: Option<Failure>): Organizer.Pass
  {
    var e := Organizer.ProcessDirSpec(kind, t, denied, cfg, [], engineRules, Inert);
    if e.err.None? then
      Organizer.Pass(e.tree, e.out + ([OrganizedNotice(name)] + CallbackTail(name, hasCallback, raised)))
    else
      Organizer.Pass(e.tree, e.out + [ErrorNotice(name, e.err.value)])
  }

  predicate CalledBack(out: seq<Event>)
  {
    exists j :: 0 <= j < |out| && out[j].CallbackInvoked?
  }

  predicate Notifies(out: seq<Event>, title: string)
  {
    exists j :: 0 <= j < |out| && out[j].Notified? && out[j].title == title
  }

  class FileEventHandler {
    const organizer: Organizer.DesktopOrganizer
    /** Whether a `notification_callback` was given. */
    const hasCallback: bool
    /** `last_handled`: bare file name to the time it was last let through. */
    var lastHandled: map<string, real>

    constructor (organizer: Organizer.DesktopOrganizer, hasCallback: bool)
      ensures this.organizer == organizer && this.hasCallback == hasCallback && lastHandled == map[]
    {
      this.organizer := organizer;
      this.hasCallback := hasCallback;
      lastHandled := map[];
    }

    method ShouldHandle(name: string, now: real) returns (accept: bool)
      modifies this
      ensures var a := Admit(old(lastHandled), name, now); accept == a.accept && lastHandled == a.ledger
    {
      if StartsWith(name, ".") || StartsWith(name, "~") {
        return false;
      }
      var last := if name in lastHandled then lastHandled[name] else 0.0;
      if now - last < QuietInterval {
        return false;
      }
      lastHandled := lastHandled[name := now];
      accept := true;
    }

    /** `_handle_file(path)`; `raised` is what the callback raises on this
        call, if anything. */
    method HandleFile(path: EventPath, raised: Option<Failure>, sink: Sink)
      modifies path.parent, sink
      ensures var h := HandleSpec(path.parent.kind, old(path.parent.entries), path.parent.denied,
                                  organizer.config, organizer.engine.rules, path.name, hasCallback, raised);
              path.parent.entries == h.tree && sink.events == old(sink.events) + h.out
    {
      ghost var out0 := sink.events;
      ghost var e := Organizer.ProcessDirSpec(path.parent.kind, path.parent.entries, path.parent.denied,
                                              organizer.config, [], organizer.engine.rules, Inert);
      var err := organizer.ProcessFiles(path.parent, [], Inert, sink);
      if err.None? {
        sink.events := sink.events + [OrganizedNotice(path.name)];
        if hasCallback {
          sink.events := sink.events + [CallbackInvoked(path.name)];
          if raised.Some? {
            sink.events := sink.events + [ErrorNotice(path.name, raised.value)];
          }
        }
        AppendAssoc(out0, e.out, [OrganizedNotice(path.name)] + CallbackTail(path.name, hasCallback, raised));
      } else {
        AppendAssoc(out0, e.out, [ErrorNotice(path.name, err.value)]);
        sink.events := sink.events + [ErrorNotice(path.name, err.value)];
      }
    }

    /** The common body of the three callbacks: directory events are
        ignored; a path let through by the debounce is handled. */
    method React(isDirectory: bool, path: EventPath, now: real, raised: Option<Failure>, sink: Sink)
      modifies this, path.parent, sink
      ensures isDirectory ==> lastHandled == old(lastHandled)
      ensures !isDirectory ==> lastHandled == Admit(old(lastHandled), path.name, now).ledger
      ensures var handled := !isDirectory && Admit(old(lastHandled), path.name, now).accept;
              var h := HandleSpec(path.parent.kind, old(path.parent.entries), path.parent.denied,
                                  organizer.config, organizer.engine.rules, path.name, hasCallback, raised);
              if handled then path.parent.entries == h.tree && sink.events == old(sink.events) + h.out
              else path.parent.entries == old(path.parent.entries) && sink.events == old(sink.events)
    {
      if isDirectory {
        return;
      }
      var accept := ShouldHandle(path.name, now);
      if accept {
        HandleFile(path, raised, sink);
      }
    }

    /** `on_modified`: the event's source path. */
    method OnModified(event: WatchEvent, now: real, raised: Option<Failure>, sink: Sink)
      modifies this, event.src.parent, sink
      ensures !event.isDirectory ==> lastHandled == Admit(old(lastHandled), event.src.name, now).ledger
      ensures var handled := !event.isDirectory && Admit(old(lastHandled), event.src.name, now).accept;
              var p := event.src.parent;
              var h := HandleSpec(p.kind, old(p.entries), p.denied, organizer.config,
                                  organizer.engine.rules, event.src.name, hasCallback, raised);
              if handled then p.entries == h.tree && sink.events == old(sink.events) + h.out
              else p.entries == old(p.entries) && sink.events == old(sink.events) && lastHandled == old(lastHandled)
    {
      React(event.isDirectory, event.src, now, raised, sink);
    }

    /** `on_created`: the event's source path. */
    method OnCreated(event: WatchEvent, now: real, raised: Option<Failure>, sink: Sink)
      modifies this, event.src.parent, sink
      ensures !event.isDirectory ==> lastHandled == Admit(old(lastHandled), event.src.name, now).ledger
      ensures var handled := !event.isDirectory && Admit(old(lastHandled), event.src.name, now).accept;
              var p := event.src.parent;
              var h := HandleSpec(p.kind, old(p.entries), p.denied, organizer.config,
                                  organizer.engine.rules, event.src.name, hasCallback, raised);
              if handled then p.entries == h.tree && sink.events == old(sink.events) + h.out
              else p.entries == old(p.entries) && sink.events == old(sink.events) && lastHandled == old(lastHandled)
    {
      React(event.isDirectory, event.src, now, raised, sink);
    }

    /** `on_moved`: the event's destination path. */
    method OnMoved(event: WatchEvent, now: real, raised: Option<Failure>, sink: Sink)
      modifies this, event.dest.parent, sink
      ensures !event.isDirectory ==> lastHandled == Admit(old(lastHandled), event.dest.name, now).ledger
      ensures var handled := !event.isDirectory && Admit(old(lastHandled), event.dest.name, now).accept;
              var p := event.dest.parent;
              var h := HandleSpec(p.kind, old(p.entries), p.denied, organizer.config,
                                  organizer.engine.rules, event.dest.name, hasCallback, raised);
              if handled then p.entries == h.tree && sink.events == old(sink.events) + h.out
              else p.entries == old(p.entries) && sink.events == old(sink.events) && lastHandled == old(lastHandled)
    {
      React(event.isDirectory, event.dest, now, raised, sink);
    }
  }

  // ---------------------------------------------------------------------------
  // Properties of handling

  /** The shape of a successful pass's output: log lines, then the
      notification, then the callback if one was given and, if that callback
      raised, the error notice. */
  predicate SuccessShape(out: seq<Event>, name: string, hasCallback: bool, raised: Option<Failure>)
  {
    var k := 1 + |CallbackTail(name, hasCallback, raised)|;
    |out| >= k && out[|out| - k] == OrganizedNotice(name) && Organizer.OnlyLogs(out[..|out| - k]) &&
    out[|out| - k + 1..] == CallbackTail(name, hasCallback, raised) &&
    Notifies(out, "File Organized") &&
    (Notifies(out, "Organization Error") <==> hasCallback && raised.Some?) &&
    (CalledBack(out) <==> hasCallback)
  }

  /** Log lines notify nothing and call nothing back, so after them only
      the rest of the stream counts. */
  lemma AfterLogs(logs: seq<Event>, tail: seq<Event>, title: string)
    requires Organizer.OnlyLogs(logs)
    ensures Notifies(logs + tail, title) <==> Notifies(tail, title)
    ensures CalledBack(logs + tail) <==> CalledBack(tail)
  {
    var out := logs + tail;
    if Notifies(out, title) {
      var j :| 0 <= j < |out| && out[j].Notified? && out[j].title == title;
      assert j >= |logs| && out[j] == tail[j - |logs|];
    }
    if Notifies(tail, title) {
      var j :| 0 <= j < |tail| && tail[j].Notified? && tail[j].title == title;
      assert out[|logs| + j] == tail[j];
    }
    if CalledBack(out) {
      var j :| 0 <= j < |out| && out[j].CallbackInvoked?;
      assert j >= |logs| && out[j] == tail[j - |logs|];
    }
    if CalledBack(tail) {
      var j :| 0 <= j < |tail| && tail[j].CallbackInvoked?;
      assert out[|logs| + j] == tail[j];
    }
  }

  /** The notices and the callback's tail on their own. */
  lemma NoticeTail(name: string, hasCallback: bool, raised: Option<Failure>)
    ensures var tail := [OrganizedNotice(name)] + CallbackTail(name, hasCallback, raised);
      Notifies(tail, "File Organized") &&
      (Notifies(tail, "Organization Error") <==> hasCallback && raised.Some?) &&
      (CalledBack(tail) <==> hasCallback)
  {
    var tail := [OrganizedNotice(name)] + CallbackTail(name, hasCallback, raised);
    assert tail[0] == OrganizedNotice(name);
    if !hasCallback {
      assert tail == [OrganizedNotice(name)];
    } else if raised.None? {
      assert tail == [OrganizedNotice(name), CallbackInvoked(name)];
    } else {
      assert tail == [OrganizedNotice(name), CallbackInvoked(name), ErrorNotice(name, raised.value)];
      assert tail[1].CallbackInvoked? && tail[2].title == "Organization Error";
    }
  }

  lemma SuccessTail(logs: seq<Event>, name: string, hasCallback: bool, raised: Option<Failure>)
    requires Organizer.OnlyLogs(logs)
    ensures SuccessShape(logs + ([OrganizedNotice(name)] + CallbackTail(name, hasCallback, raised)),
                         name, hasCallback, raised)
  {
    var tail := [OrganizedNotice(name)] + CallbackTail(name, hasCallback, raised);
    var out := logs + tail;
    assert out[|logs|] == OrganizedNotice(name);
    assert out[..|logs|] == logs;
    assert out[|logs| + 1..] == tail[1..];
    NoticeTail(name, hasCallback, raised);
    AfterLogs(logs, tail, "File Organized");
    AfterLogs(logs, tail, "Organization Error");
  }

  /** On a directory the pass itself cannot fail: the organiser's log lines
      come first, then the "File Organized" notification, then the callback
      if one was given; an error is notified exactly when that callback
      raises. */
  lemma HandleSucceeds(t: Tree, denied: set<RelPath>, cfg: Categories.Config,
                       engineRules: seq<Rules.Rule>, name: string, hasCallback: bool, raised: Option<Failure>)
    ensures SuccessShape(HandleSpec(IsDir, t, denied, cfg, engineRules, name, hasCallback, raised).out,
                         name, hasCallback, raised)
  {
    Organizer.ProcessDirWithoutRules(IsDir, t, denied, cfg, engineRules, Inert);
    var e := Organizer.ProcessDirSpec(IsDir, t, denied, cfg, [], engineRules, Inert);
    SuccessTail(e.out, name, hasCallback, raised);
  }

  /** When the parent cannot be listed nothing changes and the one event is
      the "Organization Error" notification: the callback is not called. */
  lemma HandleFails(kind: PathKind, t: Tree, denied: set<RelPath>, cfg: Categories.Config,
                    engineRules: seq<Rules.Rule>, name: string, hasCallback: bool, raised: Option<Failure>)
    requires kind != IsDir
    ensures var h := HandleSpec(kind, t, denied, cfg, engineRules, name, hasCallback, raised);
      h.tree == t && |h.out| == 1 && h.out[0].Notified? && h.out[0].title == "Organization Error" &&
      !Notifies(h.out, "File Organized") && !CalledBack(h.out)
  {
  }

  /** "File Organized" is shown exactly when the pass succeeds, the callback
      runs only after a success and only if given, and "Organization Error"
      is shown exactly when the pass fails or the callback raises. */
  lemma HandleProtocol(kind: PathKind, t: Tree, denied: set<RelPath>, cfg: Categories.Config,
                       engineRules: seq<Rules.Rule>, name: string, hasCallback: bool, raised: Option<Failure>)
    ensures var h := HandleSpec(kind, t, denied, cfg, engineRules, name, hasCallback, raised);
      (Notifies(h.out, "File Organized") <==> kind == IsDir) &&
      (Notifies(h.out, "Organization Error") <==> kind != IsDir || (hasCallback && raised.Some?)) &&
      (CalledBack(h.out) <==> kind == IsDir && hasCallback)
  {
    if kind == IsDir {
      HandleSucceeds(t, denied, cfg, engineRules, name, hasCallback, raised);
    } else {
      HandleFails(kind, t, denied, cfg, engineRules, name, hasCallback, raised);
    }
  }

  /** Handling in an existing directory re-processes it without rules, which
      cannot fail, and appends the success notices. */
  lemma HandleInDirectory(t: Tree, denied: set<RelPath>, cfg: Categories.Config,
                          engineRules: seq<Rules.Rule>, name: string, hasCallback: bool, raised: Option<Failure>)
    ensures var e := Organizer.ProcessSpec(t, denied, cfg, [], engineRules, Inert);
      HandleSpec(IsDir, t, denied, cfg, engineRules, name, hasCallback, raised) ==
        Organizer.Pass(e.tree, e.out + ([OrganizedNotice(name)] + CallbackTail(name, hasCallback, raised)))
  {
  }

  /** The handler has no single-file path: handling the event for one name
      files every movable file of the parent, or logs why it could not. */
  lemma HandlingFilesEverySibling(t: Tree, denied: set<RelPath>, cfg: Categories.Config,
                                  engineRules: seq<Rules.Rule>, name: string, hasCallback: bool,
                                  raised: Option<Failure>, n: string)
    requires IsFileAt(t, n) && !StartsWith(n, ".") && !Vault.IsEncrypted(n)
    ensures var h := HandleSpec(IsDir, t, denied, cfg, engineRules, name, hasCallback, raised);
      var cat := Categories.DetermineCategory(cfg, n);
      Organizer.Filed(h.tree, cat, n, t[n]) || Organizer.MoveLogged(h.out, n, cat)
  {
    Organizer.ProcessMovesEveryFile(t, denied, cfg, engineRules, Inert, n);
    var e := Organizer.ProcessSpec(t, denied, cfg, [], engineRules, Inert);
    var cat := Categories.DetermineCategory(cfg, n);
    var tail := [OrganizedNotice(name)] + CallbackTail(name, hasCallback, raised);
    HandleInDirectory(t, denied, cfg, engineRules, name, hasCallback, raised);
    if Organizer.MoveLogged(e.out, n, cat) {
      Organizer.MoveLoggedInPrefix(e.out, tail, n, cat);
    }
  }

  // ---------------------------------------------------------------------------
  // FileMonitor

  /** The paths that exist (as a file or a directory), in order. */
  function Existing(paths: seq<Directory>): (r: seq<Directory>)
    ensures |r| <= |paths|
    decreases |paths|
  {
    if paths == [] then []
    else (if paths[0].kind != Missing then [paths[0]] else []) + Existing(paths[1..])
  }

  /** `start` watches exactly the paths that exist. */
  lemma {:induction false} ExistingSpec(paths: seq<Directory>)
    ensures forall d :: d in Existing(paths) ==> d in paths && d.kind != Missing
    ensures forall i :: 0 <= i < |paths| && paths[i].kind != Missing ==> paths[i] in Existing(paths)
    decreases |paths|
  {
    if paths != [] {
      ExistingSpec(paths[1..]);
      assert forall i :: 1 <= i < |paths| ==> paths[i] == paths[1..][i - 1];
    }
  }

  class FileMonitor {
    const organizer: Organizer.DesktopOrganizer
    const paths: seq<Directory>
    /** `handlers`, in the order they were created. */
    var handlers: seq<FileEventHandler>
    /** The directories scheduled on the observer, one per handler. */
    var watched: seq<Directory>
    /** Whether `observer.start()` has been called. */
    var running: bool

    /** Each handler is paired with the directory it was scheduled on. */
    predicate Valid()
      reads this
    {
      |handlers| == |watched|
    }

    constructor (organizer: Organizer.DesktopOrganizer, paths: seq<Directory>)
      ensures this.organizer == organizer && this.paths == paths
      ensures handlers == [] && watched == [] && !running
      ensures Valid()
    {
      this.organizer := organizer;
      this.paths := paths;
      handlers := [];
      watched := [];
      running := false;
    }

    /** `start(notification_callback)`: one new handler, sharing the
        callback, per existing path, then the observer starts. */
    method Start(hasCallback: bool)
      modifies this
      ensures watched == old(watched) + Existing(paths)
      ensures |handlers| == |old(handlers)| + |Existing(paths)| && handlers[..|old(handlers)|] == old(handlers)
      ensures forall i :: |old(handlers)| <= i < |handlers| ==>
        fresh(handlers[i]) && handlers[i].organizer == organizer &&
        handlers[i].hasCallback == hasCallback && handlers[i].lastHandled == map[]
      ensures running
      ensures old(Valid()) ==> Valid()
    {
      var i := 0;
      while i < |paths|
        invariant 0 <= i <= |paths|
        invariant watched == old(watched) + Existing(paths[..i])
        invariant |handlers| == |old(handlers)| + |Existing(paths[..i])| && handlers[..|old(handlers)|] == old(handlers)
        invariant forall j :: |old(handlers)| <= j < |handlers| ==>
          fresh(handlers[j]) && handlers[j].organizer == organizer &&
          handlers[j].hasCallback == hasCallback && handlers[j].lastHandled == map[]
      {
        ExistingSplit(paths, i);
        if paths[i].kind != Missing {
          var h := new FileEventHandler(organizer, hasCallback);
          handlers := handlers + [h];
          watched := watched + [paths[i]];
        }
        i := i + 1;
      }
      assert paths[..i] == paths;
      running := true;
    }

    /** `add_path(path)`: a missing path is skipped; otherwise one handler
        without a callback is added and scheduled. */
    method AddPath(path: Directory)
      modifies this
      ensures path.kind == Missing ==> handlers == old(handlers) && watched == old(watched)
      ensures path.kind != Missing ==>
        |handlers| == |old(handlers)| + 1 && handlers[..|old(handlers)|] == old(handlers) &&
        fresh(handlers[|handlers| - 1]) && handlers[|handlers| - 1].organizer == organizer &&
        !handlers[|handlers| - 1].hasCallback && handlers[|handlers| - 1].lastHandled == map[] &&
        watched == old(watched) + [path]
      ensures running == old(running)
      ensures old(Valid()) ==> Valid()
    {
      if path.kind == Missing {
        return;
      }
      var h := new FileEventHandler(organizer, false);
      handlers := handlers + [h];
      watched := watched + [path];
    }

    /** `remove_path(path)`: the loop reads `handler.path`, which no handler
        has, so it raises AttributeError as soon as there is a handler; with
        none it does nothing. */
    method RemovePath(path: Directory) returns (err: Option<Failure>)
      ensures err.None? <==> handlers == []
      ensures err.Some? ==> err.value == NoAttribute("FileEventHandler", "path")
    {
      if |handlers| > 0 {
        return Some(NoAttribute("FileEventHandler", "path"));
      }
      return None;
    }

    /** What `remove_path` evidently means: unschedule and drop the first
        handler watching `path`, if there is one. */
    method Unwatch(path: Directory)
      requires Valid()
      modifies this
      ensures Valid() && running == old(running)
      ensures match IndexOf(old(watched), path)
        case None => handlers == old(handlers) && watched == old(watched)
        case Some(i) =>
          handlers == old(handlers)[..i] + old(handlers)[i + 1..] &&
          watched == old(watched)[..i] + old(watched)[i + 1..]
    {
      var i := 0;
      while i < |watched|
        invariant 0 <= i <= |watched|
        invariant forall j :: 0 <= j < i ==> watched[j] != path
      {
        if watched[i] == path {
          handlers := handlers[..i] + handlers[i + 1..];
          watched := watched[..i] + watched[i + 1..];
          return;
        }
        i := i + 1;
      }
    }
  }

  /** Position of the first occurrence of `x` in `s`. */
  function IndexOf(s: seq<Directory>, x: Directory): (r: Option<nat>)
    ensures r.Some? ==> r.value < |s| && s[r.value] == x && forall j :: 0 <= j < r.value ==> s[j] != x
    ensures r.None? <==> x !in s
    decreases |s|
  {
    if s == [] then None
    else if s[0] == x then Some(0)
    else match IndexOf(s[1..], x)
      case None => None
      case Some(i) => Some(i + 1)
  }

  /** How the existing paths of a list split at a position. */
  lemma {:induction false} ExistingSplit(paths: seq<Directory>, i: nat)
    requires i < |paths|
    ensures Existing(paths[..i + 1]) == Existing(paths[..i]) + (if paths[i].kind != Missing then [paths[i]] else [])
    ensures Existing(paths[i..]) == (if paths[i].kind != Missing then [paths[i]] else []) + Existing(paths[i + 1..])
    decreases i
  {
    assert paths[i..][0] == paths[i] && paths[i..][1..] == paths[i + 1..];
    if i == 0 {
      assert paths[..1] == [paths[0]];
      assert paths[..0] == [];
      assert [paths[0]][1..] == [];
    } else {
      var tail := paths[1..];
      ExistingSplit(tail, i - 1);
      assert paths[..i + 1] == [paths[0]] + tail[..i];
      assert paths[..i + 1][1..] == tail[..i];
      assert paths[..i][1..] == tail[..i - 1];
      assert tail[i - 1] == paths[i];
      AppendAssoc(if paths[0].kind != Missing then [paths[0]] else [], Existing(tail[..i - 1]),
                  if paths[i].kind != Missing then [paths[i]] else []);
    }
  }
}
