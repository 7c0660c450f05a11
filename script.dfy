/** The standalone script desktop-organizer.py: a fixed table of seven
    categories; `organize_desktop` creates one folder per category and moves
    every top-level file into the folder of the first category listing its
    lower-cased extension, or into "Others"; the run is confirmed by a yes/no
    answer. Unlike the package organiser it skips no hidden file, catches no
    failure and never empties a folder. */
module Script {
  import opened Base
  import opened Names
  import opened Fs

  datatype Bucket = Bucket(name: string, extensions: seq<string>)

  /** `CATEGORIES`, in its literal order. */
  const Table: seq<Bucket> := [
    Bucket("Documents", [".pdf", ".doc", ".docx", ".txt", ".xls", ".xlsx", ".ppt", ".pptx"]),
    Bucket("Pictures", [".jpg", ".jpeg", ".png", ".gif", ".bmp", ".svg", ".tiff"]),
    Bucket("Videos", [".mp4", ".mkv", ".mov", ".avi", ".flv", ".wmv"]),
    Bucket("Music", [".mp3", ".wav", ".aac", ".flac", ".ogg", ".m4a"]),
    Bucket("Programs", [".exe", ".msi", ".bat", ".sh"]),
    Bucket("Compressed", [".zip", ".rar", ".tar", ".gz", ".7z"]),
    Bucket("Others", [])
  ]

  const Fallback: string := "Others"

  /** `os.path.splitext(file)[1].lower()`. */
  function Extension(name: string): string
  {
    Lower(SplitExt(name))
  }

  /** Index of the first bucket of `buckets` listing `ext`. */
  function FirstBucket(buckets: seq<Bucket>, ext: string): (r: Option<nat>)
    ensures r.Some? ==> r.value < |buckets| && ext in buckets[r.value].extensions
    ensures r.Some? ==> forall j :: 0 <= j < r.value ==> ext !in buckets[j].extensions
    ensures r.None? <==> forall j :: 0 <= j < |buckets| ==> ext !in buckets[j].extensions
    decreases |buckets|
  {
    if buckets == [] then None
    else if ext in buckets[0].extensions then Some(0)
    else match FirstBucket(buckets[1..], ext)
      case None => None
      case Some(i) => Some(i + 1)
  }

  /** The name of the first bucket of `buckets` listing `ext`, else "Others". */
  function Choose(buckets: seq<Bucket>, ext: string): string
  {
    match FirstBucket(buckets, ext)
    case Some(i) => buckets[i].name
    case None => Fallback
  }

  /** The folder a file is moved into. */
  function Destination(name: string): string
  {
    Choose(Table, Extension(name))
  }

  /** The choice is the first bucket listing the extension, or "Others"
      when none does. */
  lemma ChooseSpec(buckets: seq<Bucket>, ext: string)
    ensures (exists i :: 0 <= i < |buckets| && ext in buckets[i].extensions &&
               (forall j :: 0 <= j < i ==> ext !in buckets[j].extensions) &&
               Choose(buckets, ext) == buckets[i].name)
         || ((forall j :: 0 <= j < |buckets| ==> ext !in buckets[j].extensions) &&
             Choose(buckets, ext) == Fallback)
  {
    match FirstBucket(buckets, ext)
    case None =>
    case Some(i) =>
      assert ext in buckets[i].extensions && Choose(buckets, ext) == buckets[i].name;
  }

  lemma ChooseFirst(buckets: seq<Bucket>, ext: string, i: nat)
    requires i < |buckets| && ext in buckets[i].extensions
    requires forall j :: 0 <= j < i ==> ext !in buckets[j].extensions
    ensures Choose(buckets, ext) == buckets[i].name
  {
    var r := FirstBucket(buckets, ext);
    assert r.Some?;
    assert r.value == i;
  }

  lemma ChooseNone(buckets: seq<Bucket>, ext: string)
    requires forall j :: 0 <= j < |buckets| ==> ext !in buckets[j].extensions
    ensures Choose(buckets, ext) == Fallback
  {
  }

  /** The destination is the name of the first bucket listing the
      extension, or "Others" when none does. */
  lemma DestinationSpec(name: string)
    ensures (exists i :: 0 <= i < |Table| && Extension(name) in Table[i].extensions &&
               (forall j :: 0 <= j < i ==> Extension(name) !in Table[j].extensions) &&
               Destination(name) == Table[i].name)
         || ((forall j :: 0 <= j < |Table| ==> Extension(name) !in Table[j].extensions) &&
             Destination(name) == Fallback)
  {
    ChooseSpec(Table, Extension(name));
  }

  /** Every destination is one of the seven folders. */
  lemma DestinationIsBucket(name: string)
    ensures IsBucketName(Destination(name))
  {
    match FirstBucket(Table, Extension(name))
    case Some(i) =>
    case None => assert Table[|Table| - 1].name == Fallback;
  }

  predicate IsBucketName(k: string)
  {
    exists i :: 0 <= i < |Table| && Table[i].name == k
  }

  /** The answer to "Do you want to proceed? (yes/no)", stripped and
      lower-cased, is "yes" or "y". */
  predicate Confirmed(answer: string)
  {
    Lower(Strip(answer)) in ["yes", "y"]
  }

  // ---------------------------------------------------------------------------
  // Specification of `organize_desktop`

  /** `os.makedirs(directory/category, exist_ok=True)` for each bucket in
      order; the first exception propagates. */
  function MakeFolders(t: Tree, denied: set<RelPath>, buckets: seq<Bucket>): Step
    decreases |buckets|
  {
    if buckets == [] then Step(t, None)
    else
      var d := MkdirExistOk(t, denied, buckets[0].name);
      if d.err.Some? then d else MakeFolders(d.tree, denied, buckets[1..])
  }

  /** The move loop over the listing `names` taken once before it: each
      entry that is a directory when its turn comes is skipped, every other one
      is moved by `shutil.move(file_path, directory/category/file)`, which
      replaces a file of that name; the first exception propagates. */
  function SortSweep(t: Tree, denied: set<RelPath>, names: seq<string>): Step
    decreases |names|
  {
    if names == [] then Step(t, None)
    else if IsDirAt(t, names[0]) then SortSweep(t, denied, names[1..])
    else
      var m := MoveInto(t, denied, names[0], Destination(names[0]), true);
      if m.err.Some? then m else SortSweep(m.tree, denied, names[1..])
  }

  /** `organize_desktop(directory)`: nothing happens when the directory does
      not exist; when it is a file the first `makedirs` raises. */
  function OrganizeDesktopSpec(kind: PathKind, t: Tree, denied: set<RelPath>): Step
  {
    match kind
    case Missing => Step(t, None)
    case NotADir => Step(t, Some(NotADirectory(Table[0].name)))
    case IsDir =>
      var f := MakeFolders(t, denied, Table);
      if f.err.Some? then f else SortSweep(f.tree, denied, Listing(f.tree.Keys))
  }

  // ---------------------------------------------------------------------------
  // The script

  method OrganizeDesktop(dir: Directory) returns (err: Option<Failure>)
    modifies dir
    ensures var s := OrganizeDesktopSpec(dir.kind, old(dir.entries), dir.denied);
            dir.entries == s.tree && err == s.err
  {
    if dir.kind == Missing {
      return None;
    }
    if dir.kind == NotADir {
      return Some(NotADirectory(Table[0].name));
    }
    var i := 0;
    while i < |Table|
      invariant 0 <= i <= |Table|
      invariant MakeFolders(old(dir.entries), dir.denied, Table) == MakeFolders(dir.entries, dir.denied, Table[i..])
    {
      assert Table[i..][0] == Table[i] && Table[i..][1..] == Table[i + 1..];
      var d := MkdirExistOk(dir.entries, dir.denied, Table[i].name);
      if d.err.Some? {
        return d.err;
      }
      dir.entries := d.tree;
      i := i + 1;
    }
    assert Table[i..] == [];
    var names := Listing(dir.entries.Keys);
    var j := 0;
    while j < |names|
      invariant 0 <= j <= |names|
      invariant SortSweep(dir.entries, dir.denied, names[j..]) ==
                OrganizeDesktopSpec(dir.kind, old(dir.entries), dir.denied)
    {
      assert names[j..][0] == names[j] && names[j..][1..] == names[j + 1..];
      if !IsDirAt(dir.entries, names[j]) {
        err := MoveToBucket(dir, names[j]);
        if err.Some? {
          return;
        }
      }
      j := j + 1;
    }
    assert names[j..] == [];
    err := None;
  }

  /** The inner loop: the first bucket listing the extension gets the file
      and ends the search; a file no bucket claims goes to "Others". */
  method MoveToBucket(dir: Directory, name: string) returns (err: Option<Failure>)
    modifies dir
    ensures var s := MoveInto(old(dir.entries), dir.denied, name, Destination(name), true);
            dir.entries == s.tree && err == s.err
  {
    var ext := Extension(name);
    var moved := false;
    var i := 0;
    err := None;
    while i < |Table|
      invariant 0 <= i <= |Table|
      invariant !moved && dir.entries == old(dir.entries)
      invariant forall j :: 0 <= j < i ==> ext !in Table[j].extensions
    {
      if ext in Table[i].extensions {
        var s := MoveInto(dir.entries, dir.denied, name, Table[i].name, true);
        dir.entries := s.tree;
        err := s.err;
        moved := true;
        ChooseFirst(Table, ext, i);
        break;
      }
      i := i + 1;
    }
    if !moved {
      ChooseNone(Table, ext);
      var s := MoveInto(dir.entries, dir.denied, name, Fallback, true);
      dir.entries := s.tree;
      err := s.err;
    }
  }

  /** The `__main__` block on the directory `desktop` and the typed `answer`. */
  method Run(desktop: Directory, answer: string) returns (err: Option<Failure>)
    modifies desktop
    ensures !Confirmed(answer) ==> desktop.entries == old(desktop.entries) && err.None?
    ensures Confirmed(answer) ==>
      var s := OrganizeDesktopSpec(desktop.kind, old(desktop.entries), desktop.denied);
      desktop.entries == s.tree && err == s.err
  {
    var proceed := Lower(Strip(answer));
    if proceed in ["yes", "y"] {
      err := OrganizeDesktop(desktop);
    } else {
      err := None;
    }
  }

  // ---------------------------------------------------------------------------
  // Properties: the table

  predicate Disjoint(a: seq<string>, b: seq<string>)
  {
    forall x, y :: 0 <= x < |a| && 0 <= y < |b| ==> a[x] != b[y]
  }

  // One lemma per category: each shares no extension with a later one.

  lemma DocumentsShareNoExtension()
    ensures forall j :: 0 < j < |Table| ==> Disjoint(Table[0].extensions, Table[j].extensions)
  {
  }

  lemma PicturesShareNoExtension()
    ensures forall j :: 1 < j < |Table| ==> Disjoint(Table[1].extensions, Table[j].extensions)
  {
  }

  lemma VideosShareNoExtension()
    ensures forall j :: 2 < j < |Table| ==> Disjoint(Table[2].extensions, Table[j].extensions)
  {
  }

  lemma MusicShareNoExtension()
    ensures forall j :: 3 < j < |Table| ==> Disjoint(Table[3].extensions, Table[j].extensions)
  {
  }

  lemma ProgramsShareNoExtension()
    ensures forall j :: 4 < j < |Table| ==> Disjoint(Table[4].extensions, Table[j].extensions)
  {
  }

  lemma CompressedShareNoExtension()
    ensures forall j :: 5 < j < |Table| ==> Disjoint(Table[5].extensions, Table[j].extensions)
  {
  }

  /** No extension is listed by two categories, and "Others" lists none. */
  lemma TableIsDisjoint()
    ensures PairwiseDisjoint(Table)
    ensures Table[|Table| - 1] == Bucket(Fallback, [])
  {
    DocumentsShareNoExtension();
    PicturesShareNoExtension();
    VideosShareNoExtension();
    MusicShareNoExtension();
    ProgramsShareNoExtension();
    CompressedShareNoExtension();
  }

  /** An extension listed by a category selects that category: there is no
      tie to break. */
  lemma {:induction false} OwnerIsSelected(name: string, i: nat)
    requires i < |Table| && Extension(name) in Table[i].extensions
    ensures Destination(name) == Table[i].name
  {
    TableIsDisjoint();
    OwnerChosen(Table, Extension(name), i);
  }

  predicate PairwiseDisjoint(buckets: seq<Bucket>)
  {
    forall i, j :: 0 <= i < j < |buckets| ==> Disjoint(buckets[i].extensions, buckets[j].extensions)
  }

  /** In a table without shared extensions, the one bucket listing an
      extension is chosen. */
  lemma OwnerChosen(buckets: seq<Bucket>, ext: string, i: nat)
    requires PairwiseDisjoint(buckets) && i < |buckets| && ext in buckets[i].extensions
    ensures Choose(buckets, ext) == buckets[i].name
  {
    var r := FirstBucket(buckets, ext);
    if r.value < i {
      SharedBreaksDisjoint(buckets[r.value].extensions, buckets[i].extensions, ext);
      assert false;
    }
  }

  /** Two lists that share an element are not disjoint. */
  lemma SharedBreaksDisjoint(a: seq<string>, b: seq<string>, e: string)
    requires e in a && e in b
    ensures !Disjoint(a, b)
  {
    var x :| 0 <= x < |a| && a[x] == e;
    var y :| 0 <= y < |b| && b[y] == e;
    assert a[x] == b[y];
  }

  /** "Others" is reached only by the fallback. */
  lemma OthersOnlyByFallback(name: string)
    ensures Destination(name) == Fallback <==> forall j :: 0 <= j < |Table| ==> Extension(name) !in Table[j].extensions
  {
    assert forall i :: 0 <= i < |Table| - 1 ==> Table[i].name != Fallback;
    FallbackOnlyWhenUnlisted(Table, Extension(name));
  }

  /** When no bucket but a last, empty one is called "Others", "Others" is
      chosen exactly when no bucket lists the extension. */
  lemma FallbackOnlyWhenUnlisted(buckets: seq<Bucket>, ext: string)
    requires |buckets| > 0 && buckets[|buckets| - 1].extensions == []
    requires forall i :: 0 <= i < |buckets| - 1 ==> buckets[i].name != Fallback
    ensures Choose(buckets, ext) == Fallback <==> forall j :: 0 <= j < |buckets| ==> ext !in buckets[j].extensions
  {
    match FirstBucket(buckets, ext)
    case None =>
    case Some(i) =>
      assert i < |buckets| - 1;
  }

  /** Every listed extension is a dot followed by at least one character. */
  lemma ExtensionsAreDotted()
    ensures forall i, x :: 0 <= i < |Table| && 0 <= x < |Table[i].extensions| ==>
      |Table[i].extensions[x]| >= 2 && Table[i].extensions[x][0] == '.'
  {
  }

  /** A file without an extension goes to "Others". */
  lemma {:induction false} NoExtensionGoesToOthers(name: string)
    requires Extension(name) == ""
    ensures Destination(name) == Fallback
  {
    ExtensionsAreDotted();
    OthersOnlyByFallback(name);
  }

  /** The extension is the lower-cased text from the last dot that is not
      leading: ".bashrc" has none and goes to "Others". */
  lemma {:induction false} LeadingDotIsNoExtension()
    ensures Extension(".bashrc") == "" && Destination(".bashrc") == Fallback
  {
    LastDotOfDottedTail("", ".bashrc");
    assert "" + ".bashrc" == ".bashrc";
    assert AllDots(".bashrc"[..0]);
    assert SplitExt(".bashrc") == "";
    NoExtensionGoesToOthers(".bashrc");
  }

  /** The extension is matched after lower-casing: "a.PDF" goes to "Documents". */
  lemma {:induction false} UpperCaseExtensionMatches()
    ensures Extension("a.PDF") == ".pdf" && Destination("a.PDF") == "Documents"
  {
    assert LastIndexOf("a.PDF", '.') == 1 by {
      LastDotOfDottedTail("a", ".PDF");
      assert "a" + ".PDF" == "a.PDF";
    }
    assert !AllDots("a.PDF"[..1]) by { assert "a.PDF"[..1][0] == 'a'; }
    assert SplitExt("a.PDF") == ".PDF";
    assert Lower(".PDF") == ".pdf";
    OwnerIsSelected("a.PDF", 0);
  }

  /** The answer is read case-insensitively and without surrounding white
      space: "  YES\n" proceeds. */
  lemma {:induction false} SpacedUpperCaseYesConfirms()
    ensures Confirmed("  YES\n")
  {
    assert "  YES\n"[1..] == " YES\n";
    assert " YES\n"[1..] == "YES\n";
    assert "YES\n"[..3] == "YES";
    assert Strip("YES") == "YES";
    assert Strip("YES\n") == "YES";
    assert Strip(" YES\n") == "YES";
    assert Lower("YES") == "yes";
  }

  /** Only the whole answer counts: "yes please" and "" do not proceed. */
  lemma {:induction false} OtherAnswersRefuse()
    ensures !Confirmed("yes please") && !Confirmed("")
  {
    assert Strip("yes please") == "yes please";
    assert |Lower("yes please")| == 10;
  }

  lemma {:induction false} StripDropsTrailingSpace(s: string, c: char)
    requires IsSpace(c)
    ensures Strip(s + [c]) == Strip(s)
    decreases |s|
  {
    if |s| > 0 && IsSpace(s[0]) {
      assert (s + [c])[1..] == s[1..] + [c];
      StripDropsTrailingSpace(s[1..], c);
    } else if |s| > 0 {
      assert (s + [c])[..|s|] == s;
    }
  }

  /** White space typed before or after the answer does not change it. */
  lemma SurroundingSpaceIgnored(answer: string, c: char)
    requires IsSpace(c)
    ensures Confirmed([c] + answer) <==> Confirmed(answer)
    ensures Confirmed(answer + [c]) <==> Confirmed(answer)
  {
    assert ([c] + answer)[1..] == answer;
    StripDropsTrailingSpace(answer, c);
  }

  // ---------------------------------------------------------------------------
  // Properties: creating the folders

  /** When creating the folders succeeds, every bucket has a folder, and the
      directory otherwise holds what it held. */
  lemma {:induction false} MakeFoldersOutcome(t: Tree, denied: set<RelPath>, buckets: seq<Bucket>)
    ensures var f := MakeFolders(t, denied, buckets);
      forall k :: k in t ==> k in f.tree && f.tree[k] == t[k]
    ensures var f := MakeFolders(t, denied, buckets);
      forall k :: k in f.tree ==> k in t || exists i :: 0 <= i < |buckets| && buckets[i].name == k
    ensures var f := MakeFolders(t, denied, buckets);
      f.err.None? ==> forall i :: 0 <= i < |buckets| ==> IsDirAt(f.tree, buckets[i].name)
    decreases |buckets|
  {
    if buckets != [] {
      var d := MkdirExistOk(t, denied, buckets[0].name);
      if d.err.None? {
        MakeFoldersOutcome(d.tree, denied, buckets[1..]);
        var f := MakeFolders(d.tree, denied, buckets[1..]);
        forall k | k in f.tree ensures k in t || exists i :: 0 <= i < |buckets| && buckets[i].name == k {
          if k !in d.tree {
            var i :| 0 <= i < |buckets[1..]| && buckets[1..][i].name == k;
            assert buckets[i + 1].name == k;
          } else if k !in t {
            assert buckets[0].name == k;
          }
        }
        forall i | 0 <= i < |buckets| && f.err.None? ensures IsDirAt(f.tree, buckets[i].name) {
          if i > 0 { assert buckets[i] == buckets[1..][i - 1]; }
        }
      }
    }
  }

  /** A top-level file named like a category makes `makedirs` raise before
      any file is moved: every file stays where it was. */
  lemma {:induction false} FileNamedLikeCategoryAborts(t: Tree, denied: set<RelPath>, i: nat)
    requires i < |Table| && IsFileAt(t, Table[i].name)
    ensures var s := OrganizeDesktopSpec(IsDir, t, denied);
      s.err.Some? && forall k :: IsFileAt(t, k) ==> k in s.tree && s.tree[k] == t[k]
  {
    MakeFoldersOutcome(t, denied, Table);
  }

  // ---------------------------------------------------------------------------
  // Properties: the move loop

  /** A move loop only ever removes top-level names. */
  lemma {:induction false} SortSweepShrinks(t: Tree, denied: set<RelPath>, names: seq<string>)
    ensures SortSweep(t, denied, names).tree.Keys <= t.Keys
    decreases |names|
  {
    if names != [] && !IsDirAt(t, names[0]) {
      var m := MoveInto(t, denied, names[0], Destination(names[0]), true);
      if m.err.None? {
        SortSweepShrinks(m.tree, denied, names[1..]);
      }
    } else if names != [] {
      SortSweepShrinks(t, denied, names[1..]);
    }
  }

  /** Directories are never moved; one that is not a category folder is not
      changed, and a category folder only gains files or has them replaced. */
  lemma {:induction false} SortSweepKeepsDirs(t: Tree, denied: set<RelPath>, names: seq<string>, k: string)
    requires IsDirAt(t, k)
    ensures var s := SortSweep(t, denied, names);
      IsDirAt(s.tree, k) && t[k].children.Keys <= s.tree[k].children.Keys &&
      (!IsBucketName(k) ==> s.tree[k] == t[k])
    decreases |names|
  {
    if names != [] && !IsDirAt(t, names[0]) {
      var m := MoveInto(t, denied, names[0], Destination(names[0]), true);
      if m.err.None? {
        DestinationIsBucket(names[0]);
        SortSweepKeepsDirs(m.tree, denied, names[1..], k);
      }
    } else if names != [] {
      SortSweepKeepsDirs(t, denied, names[1..], k);
    }
  }

  predicate Filed(t: Tree, cat: string, n: string, v: Entry)
  {
    IsDirAt(t, cat) && n in t[cat].children && t[cat].children[n] == v
  }

  lemma {:induction false} SortSweepKeepsFiled(t: Tree, denied: set<RelPath>, names: seq<string>,
                                               cat: string, n: string, v: Entry)
    requires Filed(t, cat, n, v) && n !in names
    ensures Filed(SortSweep(t, denied, names).tree, cat, n, v)
    decreases |names|
  {
    if names != [] && !IsDirAt(t, names[0]) {
      var m := MoveInto(t, denied, names[0], Destination(names[0]), true);
      if m.err.None? {
        MoveKeepsFiled(t, denied, names[0], Destination(names[0]), cat, n, v);
        SortSweepKeepsFiled(m.tree, denied, names[1..], cat, n, v);
      }
    } else if names != [] {
      SortSweepKeepsFiled(t, denied, names[1..], cat, n, v);
    }
  }

  /** Moving another top-level file leaves a filed entry where it is. */
  lemma MoveKeepsFiled(t: Tree, denied: set<RelPath>, x: string, dest: string, cat: string, n: string, v: Entry)
    requires Filed(t, cat, n, v) && x != n && x != cat
    ensures Filed(MoveInto(t, denied, x, dest, true).tree, cat, n, v)
  {
  }

  /** A successful move loop moves each listed file, once, into the folder
      of its category, with its contents. */
  lemma {:induction false} SortSweepFiles(t: Tree, denied: set<RelPath>, names: seq<string>, n: string)
    requires Distinct(names) && n in names && IsFileAt(t, n)
    requires SortSweep(t, denied, names).err.None?
    ensures var s := SortSweep(t, denied, names);
      n !in s.tree && Filed(s.tree, Destination(n), n, t[n])
    decreases |names|
  {
    var rest := names[1..];
    assert Distinct(rest) by {
      forall a, b | 0 <= a < b < |rest| ensures rest[a] != rest[b] {
        assert rest[a] == names[a + 1] && rest[b] == names[b + 1];
      }
    }
    var m := MoveInto(t, denied, names[0], Destination(names[0]), true);
    if names[0] == n {
      assert n !in rest by {
        forall j | 0 <= j < |rest| ensures rest[j] != n { assert rest[j] == names[j + 1]; }
      }
      SortSweepKeepsFiled(m.tree, denied, rest, Destination(n), n, t[n]);
      SortSweepShrinks(m.tree, denied, rest);
    } else {
      assert n in rest;
      if IsDirAt(t, names[0]) {
        SortSweepFiles(t, denied, rest, n);
      } else {
        assert m.tree[n] == t[n];
        SortSweepFiles(m.tree, denied, rest, n);
      }
    }
  }

  predicate Distinct(names: seq<string>)
  {
    forall i, j :: 0 <= i < j < |names| ==> names[i] != names[j]
  }

  // ---------------------------------------------------------------------------
  // Properties: the whole run

  /** A directory that does not exist is left alone, without an error. */
  lemma MissingDirectoryIsLeftAlone(t: Tree, denied: set<RelPath>)
    ensures OrganizeDesktopSpec(Missing, t, denied) == Step(t, None)
  {
  }

  /** After a successful run all seven folders exist (existing ones kept),
      every file that was at the top level is in the folder of its category,
      hidden files included, and no directory has been moved. */
  lemma OrganizedDesktop(t: Tree, denied: set<RelPath>)
    ensures var s := OrganizeDesktopSpec(IsDir, t, denied);
      s.err.None? ==> forall i :: 0 <= i < |Table| ==> IsDirAt(s.tree, Table[i].name)
    ensures var s := OrganizeDesktopSpec(IsDir, t, denied);
      s.err.None? ==> forall n :: IsFileAt(t, n) ==> n !in s.tree && Filed(s.tree, Destination(n), n, t[n])
    ensures var s := OrganizeDesktopSpec(IsDir, t, denied);
      forall k :: IsDirAt(t, k) ==> IsDirAt(s.tree, k) && (!IsBucketName(k) ==> s.tree[k] == t[k])
  {
    MakeFoldersOutcome(t, denied, Table);
    var f := MakeFolders(t, denied, Table);
    if f.err.None? {
      var names := Listing(f.tree.Keys);
      ListingSpec(f.tree.Keys);
      var s := SortSweep(f.tree, denied, names);
      forall i | 0 <= i < |Table| ensures IsDirAt(s.tree, Table[i].name) {
        SortSweepKeepsDirs(f.tree, denied, names, Table[i].name);
      }
      forall n | IsFileAt(t, n) && s.err.None? ensures n !in s.tree && Filed(s.tree, Destination(n), n, t[n]) {
        SortSweepFiles(f.tree, denied, names, n);
      }
      forall k | IsDirAt(t, k) ensures IsDirAt(s.tree, k) && (!IsBucketName(k) ==> s.tree[k] == t[k]) {
        SortSweepKeepsDirs(f.tree, denied, names, k);
      }
    }
  }
}
