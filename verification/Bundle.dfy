/** What an engine directory hashes to, and copying exactly that. */
module Bundle {
  import opened Wrappers
  import opened Ordering

  /** A directory lists its entries in whatever order the filesystem gives them. */
  datatype Node = File(content: string) | Folder(entries: seq<Named>)

  datatype Named = Named(name: string, node: Node)

  datatype BundleFile = BundleFile(relativePath: string, size: nat, digest: string)

  const EXCLUDED_DIRECTORIES: set<string> := {".git", ".mypy_cache", ".pytest_cache", ".ruff_cache", ".venv", "__pycache__"}
  const EXCLUDED_FILENAMES: set<string> := {".DS_Store", "installed.json"}
  const EXCLUDED_SUFFIXES: seq<string> := [".pyc", ".pyo", ".tmp"]

  predicate EndsWith(s: string, suffix: string) { |suffix| <= |s| && s[|s| - |suffix|..] == suffix }

  predicate ExcludedFile(name: string) {
    name in EXCLUDED_FILENAMES || exists i | 0 <= i < |EXCLUDED_SUFFIXES| :: EndsWith(name, EXCLUDED_SUFFIXES[i])
  }

  predicate PathName(name: string) { name != "" && '/' !in name }

  /** What a filesystem guarantees: entry names are names, and a directory holds each once. */
  predicate WellFormed(es: seq<Named>) {
    (forall i, j :: 0 <= i < j < |es| ==> es[i].name != es[j].name)
    && forall i | 0 <= i < |es| :: PathName(es[i].name) && (es[i].node.Folder? ==> WellFormed(es[i].node.entries))
  }

  // ---- The walk -------------------------------------------------------------

  function Describe(path: string, content: string, sha: string -> string): BundleFile {
    BundleFile(path, |content|, sha(content))
  }

  /** _walk */
  function Walk(es: seq<Named>, prefix: string, sha: string -> string): seq<BundleFile> {
    if es == [] then [] else WalkEntry(es[0], prefix, sha) + Walk(es[1..], prefix, sha)
  }

  function WalkEntry(e: Named, prefix: string, sha: string -> string): seq<BundleFile> {
    match e.node
    case Folder(entries) => if e.name in EXCLUDED_DIRECTORIES then [] else Walk(entries, prefix + e.name + "/", sha)
    case File(content) => if ExcludedFile(e.name) then [] else [Describe(prefix + e.name, content, sha)]
  }

  const PATH: BundleFile -> string := (f: BundleFile) => f.relativePath

  /** enumerate_bundle_files */
  function Enumerate(es: seq<Named>, sha: string -> string): seq<BundleFile> { SortBy(Walk(es, "", sha), PATH) }

  /** engine_bundle_digest, given the digest of a manifest's canonical bytes. */
  function BundleDigest(es: seq<Named>, sha: string -> string, digestManifest: seq<BundleFile> -> string): string {
    digestManifest(Enumerate(es, sha))
  }

  // ---- What the walk finds --------------------------------------------------

  function Find(es: seq<Named>, name: string): Option<Node> {
    if es == [] then None else if es[0].name == name then Some(es[0].node) else Find(es[1..], name)
  }

  lemma {:induction false} FindEntry(es: seq<Named>, i: nat)
    requires WellFormed(es) && i < |es|
    ensures Find(es, es[i].name) == Some(es[i].node)
  {
    if i > 0 {
      assert es[1..][i - 1] == es[i];
      TailWellFormed(es);
      FindEntry(es[1..], i - 1);
    }
  }

  lemma TailWellFormed(es: seq<Named>)
    requires WellFormed(es) && es != []
    ensures WellFormed(es[1..])
    ensures Find(es[1..], es[0].name).None?
  {
    assert forall i :: 0 <= i < |es[1..]| ==> es[1..][i] == es[i + 1];
    NotFound(es[1..], es[0].name);
  }

  lemma {:induction false} NotFound(es: seq<Named>, name: string)
    ensures Find(es, name).None? <==> forall i :: 0 <= i < |es| ==> es[i].name != name
  {
    if es != [] {
      NotFound(es[1..], name);
      assert forall i :: 0 < i < |es| ==> es[i] == es[1..][i - 1];
    }
  }

  /** The file at a path, if there is one. */
  function FileAt(es: seq<Named>, segments: seq<string>): Option<string>
    decreases |segments|
  {
    if segments == [] then None
    else match Find(es, segments[0])
      case None => None
      case Some(File(content)) => if |segments| == 1 then Some(content) else None
      case Some(Folder(entries)) => FileAt(entries, segments[1..])
  }

  /** Whether the walk gets to a path: no excluded directory on the way, no excluded name at the end. */
  predicate Included(segments: seq<string>) {
    segments != [] && !ExcludedFile(segments[|segments| - 1])
    && forall i :: 0 <= i < |segments| - 1 ==> segments[i] !in EXCLUDED_DIRECTORIES
  }

  /** What the walk passes over, name by name. */
  lemma IncludedExactly(segments: seq<string>)
    ensures Included(segments)
       <==> segments != []
            && (forall i :: 0 <= i < |segments| - 1 ==>
                  segments[i] !in [".git", ".mypy_cache", ".pytest_cache", ".ruff_cache", ".venv", "__pycache__"])
            && (var name := segments[|segments| - 1];
                name != ".DS_Store" && name != "installed.json"
                && forall stem: string :: name != stem + ".pyc" && name != stem + ".pyo" && name != stem + ".tmp")
  {
    if segments != [] {
      ExcludedExactly(segments[|segments| - 1]);
    }
    hide ExcludedFile;
    assert forall name :: name in EXCLUDED_DIRECTORIES <==>
        name in [".git", ".mypy_cache", ".pytest_cache", ".ruff_cache", ".venv", "__pycache__"];
  }

  lemma ExcludedExactly(name: string)
    ensures ExcludedFile(name)
       <==> name == ".DS_Store" || name == "installed.json"
            || exists stem: string :: name == stem + ".pyc" || name == stem + ".pyo" || name == stem + ".tmp"
  {
    SuffixExactly(name, ".pyc");
    SuffixExactly(name, ".pyo");
    SuffixExactly(name, ".tmp");
    hide EndsWith;
    assert EXCLUDED_SUFFIXES[0] == ".pyc" && EXCLUDED_SUFFIXES[1] == ".pyo" && EXCLUDED_SUFFIXES[2] == ".tmp";
  }

  lemma SuffixExactly(s: string, suffix: string)
    ensures EndsWith(s, suffix) <==> exists stem: string :: s == stem + suffix
  {
    if EndsWith(s, suffix) {
      assert s == s[..|s| - |suffix|] + suffix;
    }
  }

  function Join(segments: seq<string>): string {
    if segments == [] then "" else if |segments| == 1 then segments[0] else segments[0] + "/" + Join(segments[1..])
  }

  /** relative_path.split("/") */
  function Split(path: string): seq<string>
    decreases |path|
  {
    var i := FirstSolidus(path);
    if i == |path| then [path] else [path[..i]] + Split(path[i + 1..])
  }

  function FirstSolidus(path: string): (i: nat)
    ensures i <= |path| && (i < |path| ==> path[i] == '/')
    ensures forall k :: 0 <= k < i ==> path[k] != '/'
  {
    if path == "" || path[0] == '/' then 0 else 1 + FirstSolidus(path[1..])
  }

  ghost predicate PathNames(segments: seq<string>) { forall i :: 0 <= i < |segments| ==> PathName(segments[i]) }

  lemma FirstSolidusAt(a: string, rest: string)
    requires '/' !in a
    ensures FirstSolidus(a) == |a| && FirstSolidus(a + "/" + rest) == |a|
  {
    var path := a + "/" + rest;
    assert forall k :: 0 <= k < |a| ==> path[k] == a[k] && a[k] != '/';
    assert path[|a|] == '/';
    assert FirstSolidus(path) <= |a|;
  }

  /** Splitting a relative path gives back the names it was made of. */
  lemma {:induction false} SplitJoin(segments: seq<string>)
    requires segments != [] && PathNames(segments)
    ensures Split(Join(segments)) == segments
  {
    var a := segments[0];
    if |segments| == 1 {
      FirstSolidusAt(a, "");
    } else {
      var rest := Join(segments[1..]);
      FirstSolidusAt(a, rest);
      var path := a + "/" + rest;
      assert path[..|a|] == a && path[|a| + 1..] == rest;
      SplitJoin(segments[1..]);
    }
  }

  ghost predicate Emits(es: seq<Named>, prefix: string, segments: seq<string>, f: BundleFile, sha: string -> string) {
    Included(segments) && FileAt(es, segments).Some?
    && f.relativePath == prefix + Join(segments)
    && f.size == |FileAt(es, segments).value| && f.digest == sha(FileAt(es, segments).value)
  }

  lemma {:induction false} FileAtNames(es: seq<Named>, segments: seq<string>)
    requires WellFormed(es) && FileAt(es, segments).Some?
    ensures PathNames(segments)
    decreases |segments|
  {
    var n := Find(es, segments[0]).value;
    var i := FoundAt(es, segments[0]);
    if n.Folder? {
      FileAtNames(n.entries, segments[1..]);
      assert forall j :: 0 < j < |segments| ==> segments[j] == segments[1..][j - 1];
    }
  }

  lemma {:induction false} FoundAt(es: seq<Named>, name: string) returns (i: nat)
    requires Find(es, name).Some?
    ensures i < |es| && es[i].name == name && Find(es, name) == Some(es[i].node)
  {
    if es[0].name == name {
      i := 0;
    } else {
      i := FoundAt(es[1..], name);
      i := i + 1;
    }
  }

  lemma FileAtHead(es: seq<Named>, segments: seq<string>)
    requires es != [] && segments != []
    ensures segments[0] != es[0].name ==> FileAt(es, segments) == FileAt(es[1..], segments)
    ensures segments[0] == es[0].name ==>
              FileAt(es, segments) == match es[0].node
                                      case File(content) => if |segments| == 1 then Some(content) else None
                                      case Folder(entries) => FileAt(entries, segments[1..])
  {
  }

  lemma IncludedBelow(name: string, segments: seq<string>)
    requires segments != []
    ensures Included([name] + segments) <==> name !in EXCLUDED_DIRECTORIES && Included(segments)
    ensures Join([name] + segments) == name + "/" + Join(segments)
  {
    hide ExcludedFile;
    var whole := [name] + segments;
    assert whole[1..] == segments;
    assert forall i :: 0 < i < |whole| ==> whole[i] == segments[i - 1];
    assert forall i :: 0 <= i < |segments| ==> segments[i] == whole[i + 1];
    assert whole[0] == name && whole[|whole| - 1] == segments[|segments| - 1];
    if name !in EXCLUDED_DIRECTORIES && Included(segments) {
      assert forall i :: 0 <= i < |whole| - 1 ==> whole[i] == if i == 0 then name else segments[i - 1];
    }
  }

  lemma {:induction false} WalkSound(es: seq<Named>, prefix: string, f: BundleFile, sha: string -> string)
    returns (segments: seq<string>)
    requires WellFormed(es) && f in Walk(es, prefix, sha)
    ensures Emits(es, prefix, segments, f, sha)
    decreases es
  {
    hide Included, ExcludedFile, WellFormed, Join;
    TailWellFormed(es);
    FirstWellFormed(es);
    if f in WalkEntry(es[0], prefix, sha) {
      segments := EntrySound(es[0], prefix, f, sha);
      FileAtHead(es, segments);
    } else {
      segments := WalkSound(es[1..], prefix, f, sha);
      OtherName(es, segments);
    }
  }

  lemma OtherName(es: seq<Named>, segments: seq<string>)
    requires WellFormed(es) && es != [] && FileAt(es[1..], segments).Some?
    ensures FileAt(es, segments) == FileAt(es[1..], segments) && segments[0] != es[0].name
  {
    TailWellFormed(es);
  }

  lemma {:induction false} EntrySound(e: Named, prefix: string, f: BundleFile, sha: string -> string)
    returns (segments: seq<string>)
    requires WellFormed([e]) && f in WalkEntry(e, prefix, sha)
    ensures segments != [] && segments[0] == e.name && Emits([e], prefix, segments, f, sha)
    decreases e
  {
    hide Walk, Join, ExcludedFile, Included, WellFormed;
    if e.node.Folder? {
      EntryWellFormed(e);
      var rest := WalkSound(e.node.entries, prefix + e.name + "/", f, sha);
      segments := [e.name] + rest;
      IncludedBelow(e.name, rest);
      FileAtHead([e], segments);
      assert segments[1..] == rest;
      assert prefix + e.name + "/" + Join(rest) == prefix + (e.name + "/" + Join(rest));
    } else {
      segments := [e.name];
      IncludedAlone(e.name);
    }
  }

  lemma EntryWellFormed(e: Named)
    requires WellFormed([e])
    ensures PathName(e.name) && (e.node.Folder? ==> WellFormed(e.node.entries))
  {
    assert [e][0] == e;
  }

  lemma FirstWellFormed(es: seq<Named>)
    requires WellFormed(es) && es != []
    ensures WellFormed([es[0]])
  {
  }

  lemma IncludedAlone(name: string)
    ensures Included([name]) <==> !ExcludedFile(name)
    ensures Join([name]) == name
  {
  }

  lemma {:induction false} WalkComplete(es: seq<Named>, prefix: string, segments: seq<string>, sha: string -> string)
    requires Included(segments) && FileAt(es, segments).Some?
    ensures var content := FileAt(es, segments).value;
            BundleFile(prefix + Join(segments), |content|, sha(content)) in Walk(es, prefix, sha)
    decreases es
  {
    hide Included, ExcludedFile, Join;
    var e := es[0];
    FileAtHead(es, segments);
    if segments[0] != e.name {
      WalkComplete(es[1..], prefix, segments, sha);
    } else if e.node.File? {
      assert segments == [e.name];
      IncludedAlone(e.name);
    } else {
      var rest := segments[1..];
      assert rest != [];
      assert segments == [e.name] + rest;
      IncludedBelow(e.name, rest);
      WalkComplete(e.node.entries, prefix + e.name + "/", rest, sha);
      assert prefix + e.name + "/" + Join(rest) == prefix + (e.name + "/" + Join(rest));
    }
  }

  /** One path, one line: no two walked files have the same relative path. */
  lemma {:induction false} WalkDistinct(es: seq<Named>, prefix: string, sha: string -> string)
    requires WellFormed(es)
    ensures DistinctBy(Walk(es, prefix, sha), PATH)
    decreases es
  {
    hide WellFormed, DistinctBy;
    if es == [] {
      NothingDistinct();
    } else {
      var head, tail := WalkEntry(es[0], prefix, sha), Walk(es[1..], prefix, sha);
      TailWellFormed(es);
      FirstWellFormed(es);
      EntryWellFormed(es[0]);
      WalkDistinct(es[1..], prefix, sha);
      if es[0].node.Folder? && es[0].name !in EXCLUDED_DIRECTORIES {
        WalkDistinct(es[0].node.entries, prefix + es[0].name + "/", sha);
      } else {
        AtMostOneDistinct(head);
      }
      forall f, g | f in head && g in tail
        ensures PATH(f) != PATH(g)
      {
        HeadApart(es, prefix, f, g, sha);
      }
      DistinctConcat(head, tail);
    }
  }

  lemma NothingDistinct()
    ensures DistinctBy<BundleFile>([], PATH)
  {
  }

  lemma AtMostOneDistinct(fs: seq<BundleFile>)
    requires |fs| <= 1
    ensures DistinctBy(fs, PATH)
  {
  }

  lemma DistinctConcat(a: seq<BundleFile>, b: seq<BundleFile>)
    requires DistinctBy(a, PATH) && DistinctBy(b, PATH)
    requires forall f, g :: f in a && g in b ==> PATH(f) != PATH(g)
    ensures DistinctBy(a + b, PATH)
  {
    var c := a + b;
    forall i, j | 0 <= i < j < |c|
      ensures PATH(c[i]) != PATH(c[j])
    {
      assert i < |a| <= j ==> c[i] in a && c[j] in b;
    }
  }

  lemma HeadApart(es: seq<Named>, prefix: string, f: BundleFile, g: BundleFile, sha: string -> string)
    requires WellFormed(es) && es != []
    requires f in WalkEntry(es[0], prefix, sha) && g in Walk(es[1..], prefix, sha)
    ensures PATH(f) != PATH(g)
  {
    hide WellFormed, Walk, WalkEntry, Join, Included, FileAt;
    FirstWellFormed(es);
    TailWellFormed(es);
    var s := EntrySound(es[0], prefix, f, sha);
    var t := WalkSound(es[1..], prefix, g, sha);
    FileAtNames([es[0]], s);
    FileAtNames(es[1..], t);
    OtherName(es, t);
    NotEmpty(es[1..], t);
    if PATH(f) == PATH(g) {
      assert (prefix + Join(s))[|prefix|..] == Join(s) && (prefix + Join(t))[|prefix|..] == Join(t);
      JoinInjective(s, t);
    }
  }

  lemma JoinInjective(s: seq<string>, t: seq<string>)
    requires s != [] && t != [] && PathNames(s) && PathNames(t) && Join(s) == Join(t)
    ensures s == t
  {
    SplitJoin(s);
    SplitJoin(t);
  }

  // ---- What the enumeration depends on --------------------------------------

  /** The same content, or the same absence, at every path the walk gets to. */
  ghost predicate SameIncluded(a: seq<Named>, b: seq<Named>) {
    forall segments :: Included(segments) ==> FileAt(a, segments) == FileAt(b, segments)
  }

  lemma WalkFollows(a: seq<Named>, b: seq<Named>, f: BundleFile, sha: string -> string)
    requires WellFormed(a) && SameIncluded(a, b) && f in Walk(a, "", sha)
    ensures f in Walk(b, "", sha)
  {
    hide WellFormed, Walk, Join, Included, FileAt;
    var segments := WalkSound(a, "", f, sha);
    WalkComplete(b, "", segments, sha);
  }

  /** The enumeration is every included file once, with its size and its digest, in ascending order of path. */
  lemma EnumerationLists(es: seq<Named>, sha: string -> string)
    requires WellFormed(es)
    ensures forall f :: f in Enumerate(es, sha) <==> exists segments :: Emits(es, "", segments, f, sha)
    ensures var fs := Enumerate(es, sha);
            forall i, j :: 0 <= i < j < |fs| ==>
              fs[i].relativePath != fs[j].relativePath && StrLe(fs[i].relativePath, fs[j].relativePath)
  {
    hide WellFormed, Walk, SortBy, Included, FileAt, Join;
    var walked, fs := Walk(es, "", sha), Enumerate(es, sha);
    SameMembers(walked, PATH);
    SortBySorts(walked, PATH);
    WalkDistinct(es, "", sha);
    SortByDistinct(walked, PATH);
    forall f
      ensures f in walked <==> exists segments :: Emits(es, "", segments, f, sha)
    {
      if f in walked {
        var segments := WalkSound(es, "", f, sha);
      }
      forall segments | Emits(es, "", segments, f, sha)
        ensures f in walked
      {
        WalkComplete(es, "", segments, sha);
      }
    }
    forall i, j | 0 <= i < j < |fs|
      ensures fs[i].relativePath != fs[j].relativePath && StrLe(fs[i].relativePath, fs[j].relativePath)
    {
      assert PATH(fs[i]) != PATH(fs[j]) && StrLe(PATH(fs[i]), PATH(fs[j]));
    }
  }

  /** Two trees with the same included contents enumerate alike: neither the order in which directories list their
      entries nor anything excluded changes the list. */
  lemma EnumerationDeterminedByContents(a: seq<Named>, b: seq<Named>, sha: string -> string)
    requires WellFormed(a) && WellFormed(b) && SameIncluded(a, b)
    ensures Enumerate(a, sha) == Enumerate(b, sha)
  {
    hide WellFormed, Walk, SameIncluded, DistinctBy, SortBy;
    WalkDistinct(a, "", sha);
    WalkDistinct(b, "", sha);
    forall f
      ensures f in Walk(a, "", sha) <==> f in Walk(b, "", sha)
    {
      SameIncludedSymmetric(a, b);
      if f in Walk(a, "", sha) {
        WalkFollows(a, b, f, sha);
      } else if f in Walk(b, "", sha) {
        WalkFollows(b, a, f, sha);
      }
    }
    SortIgnoresOrder(Walk(a, "", sha), Walk(b, "", sha), PATH);
  }

  lemma SameIncludedSymmetric(a: seq<Named>, b: seq<Named>)
    requires SameIncluded(a, b)
    ensures SameIncluded(b, a)
  {
  }

  /** The list says what every included file holds. */
  lemma ListedContent(a: seq<Named>, b: seq<Named>, segments: seq<string>, sha: string -> string)
    requires WellFormed(a) && WellFormed(b) && Injective(sha) && Enumerate(a, sha) == Enumerate(b, sha)
    requires Included(segments) && FileAt(a, segments).Some?
    ensures FileAt(b, segments) == FileAt(a, segments)
  {
    hide WellFormed, Walk, Join, Included, FileAt, SortBy;
    var f := Describe(Join(segments), FileAt(a, segments).value, sha);
    assert "" + Join(segments) == Join(segments);
    WalkComplete(a, "", segments, sha);
    SameMembers(Walk(a, "", sha), PATH);
    SameMembers(Walk(b, "", sha), PATH);
    assert f in Enumerate(a, sha) && f in Walk(b, "", sha);
    var t := WalkSound(b, "", f, sha);
    assert "" + Join(t) == Join(t);
    FileAtNames(a, segments);
    FileAtNames(b, t);
    NotEmpty(a, segments);
    NotEmpty(b, t);
    JoinInjective(segments, t);
  }

  lemma NotEmpty(es: seq<Named>, segments: seq<string>)
    requires FileAt(es, segments).Some?
    ensures segments != []
  {
  }

  /** With a collision-free digest the enumeration commits to the included contents, and to nothing else. */
  lemma EnumerationExact(a: seq<Named>, b: seq<Named>, sha: string -> string)
    requires WellFormed(a) && WellFormed(b) && Injective(sha)
    ensures Enumerate(a, sha) == Enumerate(b, sha) <==> SameIncluded(a, b)
  {
    hide WellFormed, Enumerate, Included, FileAt;
    if SameIncluded(a, b) {
      EnumerationDeterminedByContents(a, b, sha);
    }
    if Enumerate(a, sha) == Enumerate(b, sha) {
      forall segments | Included(segments)
        ensures FileAt(a, segments) == FileAt(b, segments)
      {
        if FileAt(a, segments).Some? {
          ListedContent(a, b, segments, sha);
        } else if FileAt(b, segments).Some? {
          ListedContent(b, a, segments, sha);
        }
      }
    }
  }

  // ---- Reordering, and adding what is excluded ------------------------------

  /** What the walk passes over. */
  predicate Dropped(e: Named) { if e.node.Folder? then e.name in EXCLUDED_DIRECTORIES else ExcludedFile(e.name) }

  ghost predicate Listed(es: seq<Named>, name: string) { exists i :: 0 <= i < |es| && es[i].name == name && !Dropped(es[i]) }

  ghost predicate ListedAlike(e: Named, es: seq<Named>)
    decreases e, 0
  {
    exists i :: 0 <= i < |es| && es[i].name == e.name && AlikeNode(e.node, es[i].node)
  }

  ghost predicate AlikeNode(m: Node, n: Node)
    decreases m
  {
    if m.Folder? && n.Folder? then Alike(m.entries, n.entries) else m == n
  }

  /** The same entries in any order at every level, with excluded ones added or taken away anywhere. */
  ghost predicate Alike(a: seq<Named>, b: seq<Named>)
    decreases a
  {
    (forall i | 0 <= i < |a| :: Dropped(a[i]) || ListedAlike(a[i], b))
    && forall i :: 0 <= i < |b| ==> Dropped(b[i]) || Listed(a, b[i].name)
  }

  lemma {:induction false} AlikeMeansSame(a: seq<Named>, b: seq<Named>, segments: seq<string>)
    requires WellFormed(a) && WellFormed(b) && Alike(a, b) && Included(segments)
    ensures FileAt(a, segments) == FileAt(b, segments)
    decreases |segments|
  {
    hide ExcludedFile, WellFormed;
    var name := segments[0];
    if Find(a, name).Some? {
      var i := FoundAt(a, name);
      if Dropped(a[i]) {
        DroppedIsLost(a, i, segments);
        if Find(b, name).Some? {
          var j := FoundAt(b, name);
          DroppedOnBoth(a, b, i, j);
          DroppedIsLost(b, j, segments);
        }
      } else {
        var j :| 0 <= j < |b| && b[j].name == name && AlikeNode(a[i].node, b[j].node);
        FindEntry(b, j);
        if a[i].node.Folder? && b[j].node.Folder? && |segments| > 1 {
          IncludedTail(segments);
          EntriesWellFormed(a, i);
          EntriesWellFormed(b, j);
          AlikeMeansSame(a[i].node.entries, b[j].node.entries, segments[1..]);
        }
      }
    } else if Find(b, name).Some? {
      var j := FoundAt(b, name);
      NotFound(a, name);
      DroppedIsLost(b, j, segments);
    }
  }

  lemma IncludedTail(segments: seq<string>)
    requires Included(segments) && |segments| > 1
    ensures Included(segments[1..]) && segments[0] !in EXCLUDED_DIRECTORIES
  {
    assert segments == [segments[0]] + segments[1..];
    IncludedBelow(segments[0], segments[1..]);
  }

  lemma EntriesWellFormed(es: seq<Named>, i: nat)
    requires WellFormed(es) && i < |es| && es[i].node.Folder?
    ensures WellFormed(es[i].node.entries)
  {
  }

  /** Nothing the walk gets to lies at or below an entry it passes over. */
  lemma DroppedIsLost(es: seq<Named>, i: nat, segments: seq<string>)
    requires WellFormed(es) && i < |es| && Dropped(es[i]) && Included(segments) && segments[0] == es[i].name
    ensures FileAt(es, segments).None?
  {
    hide ExcludedFile;
    FindEntry(es, i);
    if |segments| > 1 {
      IncludedTail(segments);
    }
  }

  lemma DroppedOnBoth(a: seq<Named>, b: seq<Named>, i: nat, j: nat)
    requires WellFormed(a) && Alike(a, b) && i < |a| && j < |b| && Dropped(a[i]) && b[j].name == a[i].name
    ensures Dropped(b[j])
  {
    forall k | 0 <= k < |a| && a[k].name == a[i].name
      ensures k == i
    {
    }
    assert !Listed(a, b[j].name);
  }

  /** Files added under excluded directories or with excluded names, and a different listing order, leave the
      enumeration, and so the bundle digest, unchanged. */
  lemma ExcludedFilesDoNotCount(a: seq<Named>, b: seq<Named>, sha: string -> string)
    requires WellFormed(a) && WellFormed(b) && Alike(a, b)
    ensures Enumerate(a, sha) == Enumerate(b, sha)
  {
    hide WellFormed, Alike, Included, FileAt, Enumerate;
    forall segments | Included(segments)
      ensures FileAt(a, segments) == FileAt(b, segments)
    {
      AlikeMeansSame(a, b, segments);
    }
    EnumerationDeterminedByContents(a, b, sha);
  }

  // ---- The copy -------------------------------------------------------------

  /** What the directory of that name holds, or nothing where there is none yet. */
  function Below(es: seq<Named>, name: string): seq<Named> {
    var n := Find(es, name);
    if n.Some? && n.value.Folder? then n.value.entries else []
  }

  /** Writing one file, with the directories above it made where they are missing. */
  function Put(es: seq<Named>, segments: seq<string>, content: string): seq<Named>
    requires segments != []
    decreases |segments|
  {
    var i := Position(es, segments[0]);
    var node := if |segments| == 1 then File(content) else Folder(Put(Below(es, segments[0]), segments[1..], content));
    if i < |es| then es[i := Named(segments[0], node)] else es + [Named(segments[0], node)]
  }

  function Position(es: seq<Named>, name: string): (i: nat)
    ensures i <= |es| && (i < |es| ==> es[i].name == name)
    ensures forall j :: 0 <= j < i ==> es[j].name != name
  {
    if es == [] || es[0].name == name then 0 else 1 + Position(es[1..], name)
  }

  /** Whether the write can happen: no file where a directory is needed, no directory where the file goes. */
  predicate Room(es: seq<Named>, segments: seq<string>)
    requires segments != []
    decreases |segments|
  {
    match Find(es, segments[0])
    case None => true
    case Some(File(_)) => |segments| == 1
    case Some(Folder(entries)) => |segments| > 1 && Room(entries, segments[1..])
  }

  lemma FindIsPosition(es: seq<Named>, name: string)
    ensures var i := Position(es, name); Find(es, name) == if i < |es| then Some(es[i].node) else None
  {
  }

  lemma FindAfterPut(es: seq<Named>, segments: seq<string>, content: string, name: string)
    requires segments != []
    ensures Find(Put(es, segments, content), name)
         == if name != segments[0] then Find(es, name)
            else if |segments| == 1 then Some(File(content))
            else Some(Folder(Put(Below(es, segments[0]), segments[1..], content)))
  {
    hide Find;
    var i := Position(es, segments[0]);
    var now := Put(es, segments, content);
    FindIsPosition(es, segments[0]);
    FindIsPosition(es, name);
    FindIsPosition(now, name);
    assert forall k :: 0 <= k < |es| && k != i ==> now[k] == es[k];
    assert now[i].name == segments[0];
    if name == segments[0] {
      assert Position(now, name) == i;
    } else {
      var j := Position(es, name);
      assert j < |es| ==> now[j] == es[j];
      assert j < |es| ==> Position(now, name) == j;
      assert j == |es| ==> Position(now, name) == |now|;
    }
  }

  /** A write with room for it adds one file and changes no other. */
  lemma {:induction false} FileAtAfterPut(es: seq<Named>, segments: seq<string>, content: string, path: seq<string>)
    requires segments != [] && Room(es, segments)
    ensures FileAt(Put(es, segments, content), path) == if path == segments then Some(content) else FileAt(es, path)
    decreases |segments|
  {
    hide Put, Position;
    if path != [] {
      FindAfterPut(es, segments, content, path[0]);
      if path[0] == segments[0] && |segments| > 1 {
        var below := Below(es, segments[0]);
        NoFileInNothing(segments[1..]);
        NoFileInNothing(path[1..]);
        FileAtAfterPut(below, segments[1..], content, path[1..]);
        assert path[1..] == segments[1..] <==> path == segments by {
          assert path == [path[0]] + path[1..] && segments == [segments[0]] + segments[1..];
        }
      } else if path[0] == segments[0] {
        assert path == segments <==> |path| == 1;
      }
    }
  }

  lemma NoFileInNothing(segments: seq<string>)
    ensures FileAt([], segments).None?
    ensures segments != [] ==> Room([], segments)
  {
  }

  lemma {:induction false} PutWellFormed(es: seq<Named>, segments: seq<string>, content: string)
    requires segments != [] && PathNames(segments) && WellFormed(es)
    ensures WellFormed(Put(es, segments, content))
    decreases |segments|
  {
    var i := Position(es, segments[0]);
    FindIsPosition(es, segments[0]);
    if |segments| > 1 {
      PutWellFormed(Below(es, segments[0]), segments[1..], content);
    }
  }

  /** Everything in the one tree has a counterpart of its own kind in the other. */
  ghost predicate Under(a: seq<Named>, b: seq<Named>)
    decreases a
  {
    forall i | 0 <= i < |a| ::
      Find(b, a[i].name).Some?
      && (if a[i].node.Folder? then Find(b, a[i].name).value.Folder? && Under(a[i].node.entries, Find(b, a[i].name).value.entries)
          else Find(b, a[i].name).value.File?)
  }

  lemma {:induction false} UnderHasRoom(a: seq<Named>, b: seq<Named>, segments: seq<string>)
    requires Under(a, b) && FileAt(b, segments).Some?
    ensures Room(a, segments)
    decreases |segments|
  {
    if Find(a, segments[0]).Some? {
      var i := FoundAt(a, segments[0]);
      if a[i].node.Folder? {
        UnderHasRoom(a[i].node.entries, Find(b, segments[0]).value.entries, segments[1..]);
      }
    }
  }

  lemma {:induction false} PutStaysUnder(a: seq<Named>, b: seq<Named>, segments: seq<string>, content: string)
    requires Under(a, b) && FileAt(b, segments).Some?
    ensures Under(Put(a, segments, content), b)
    decreases |segments|
  {
    FindIsPosition(a, segments[0]);
    var below := Below(a, segments[0]);
    if |segments| > 1 {
      var target := Find(b, segments[0]).value.entries;
      assert Under(below, target);
      PutStaysUnder(below, target, segments[1..], content);
    }
  }

  datatype CopyError = NotEmptyDestination

  class Directory {
    var entries: seq<Named>

    constructor ()
      ensures entries == []
    {
      entries := [];
    }

    method Write(segments: seq<string>, content: string)
      requires segments != [] && Room(entries, segments)
      modifies this
      ensures entries == Put(old(entries), segments, content)
    {
      entries := Put(entries, segments, content);
    }

    /** copy_engine_bundle: the included files, each with its content, and nothing else. */
    method CopyBundle(source: seq<Named>, sha: string -> string) returns (r: Result<(), CopyError>)
      requires WellFormed(source)
      modifies this
      ensures r.Ok? <==> old(entries) == []
      ensures r.Err? ==> entries == old(entries)
      ensures r.Ok? ==> WellFormed(entries) && CopyOf(entries, source)
    {
      hide WellFormed, Put, Room, Under, FileAt, Included, Join, Split, Enumerate;
      if entries != [] {
        return Err(NotEmptyDestination);
      }
      var files := Enumerate(source, sha);
      StartCopy(source, files[..0]);
      for i := 0 to |files|
        invariant WellFormed(entries) && Under(entries, source)
        invariant Copied(entries, source, files[..i])
      {
        var segments := Split(files[i].relativePath);
        EnumeratedFile(source, files[i], sha);
        var content := FileAt(source, segments);
        UnderHasRoom(entries, source, segments);
        PutStaysUnder(entries, source, segments, content.value);
        PutWellFormed(entries, segments, content.value);
        OneMoreCopied(entries, source, files[..i], files[i], segments);
        assert files[..i + 1] == files[..i] + [files[i]];
        Write(segments, content.value);
      }
      assert files[..|files|] == files;
      AllCopied(entries, source, sha);
      r := Ok(());
    }
  }

  /** The copy holds what the source holds where the walk gets to, and nothing anywhere else. */
  ghost predicate CopyOf(copy: seq<Named>, source: seq<Named>) {
    forall path :: FileAt(copy, path) == if Included(path) then FileAt(source, path) else None
  }

  ghost predicate Among(path: seq<string>, done: seq<BundleFile>) {
    path != [] && PathNames(path) && exists i :: 0 <= i < |done| && done[i].relativePath == Join(path)
  }

  /** Half-way: exactly the files already listed. */
  ghost predicate Copied(copy: seq<Named>, source: seq<Named>, done: seq<BundleFile>) {
    forall path :: FileAt(copy, path) == if Among(path, done) then FileAt(source, path) else None
  }

  lemma StartCopy(source: seq<Named>, done: seq<BundleFile>)
    requires done == []
    ensures WellFormed([]) && Under([], source) && Copied([], source, done)
  {
    forall path
      ensures FileAt([], path).None?
    {
      NoFileInNothing(path);
    }
  }

  lemma EnumeratedFile(source: seq<Named>, f: BundleFile, sha: string -> string)
    requires WellFormed(source) && f in Enumerate(source, sha)
    ensures var segments := Split(f.relativePath);
            segments != [] && PathNames(segments) && Join(segments) == f.relativePath && Included(segments) && FileAt(source, segments).Some?
  {
    hide WellFormed, Walk, Join, Included, FileAt, Split;
    SameMembers(Walk(source, "", sha), PATH);
    var segments := WalkSound(source, "", f, sha);
    assert "" + Join(segments) == Join(segments);
    FileAtNames(source, segments);
    NotEmpty(source, segments);
    SplitJoin(segments);
  }

  lemma OneMoreCopied(copy: seq<Named>, source: seq<Named>, done: seq<BundleFile>, f: BundleFile, segments: seq<string>)
    requires segments != [] && PathNames(segments) && Join(segments) == f.relativePath
    requires Room(copy, segments) && Copied(copy, source, done) && FileAt(source, segments).Some?
    ensures Copied(Put(copy, segments, FileAt(source, segments).value), source, done + [f])
  {
    hide FileAt, Put, Room, Join;
    var now := Put(copy, segments, FileAt(source, segments).value);
    var more := done + [f];
    forall path
      ensures FileAt(now, path) == if Among(path, more) then FileAt(source, path) else None
    {
      FileAtAfterPut(copy, segments, FileAt(source, segments).value, path);
      AmongMore(path, done, f, segments);
    }
  }

  lemma AmongMore(path: seq<string>, done: seq<BundleFile>, f: BundleFile, segments: seq<string>)
    requires segments != [] && PathNames(segments) && Join(segments) == f.relativePath
    ensures Among(path, done + [f]) <==> Among(path, done) || path == segments
  {
    hide Join;
    var more := done + [f];
    assert forall i :: 0 <= i < |done| ==> more[i] == done[i];
    assert more[|done|] == f;
    if Among(path, more) && !Among(path, done) {
      JoinInjective(path, segments);
    }
  }

  lemma AllCopied(copy: seq<Named>, source: seq<Named>, sha: string -> string)
    requires WellFormed(source) && Copied(copy, source, Enumerate(source, sha))
    ensures CopyOf(copy, source)
  {
    hide WellFormed, Walk, Join, Included, FileAt, Enumerate;
    var files := Enumerate(source, sha);
    forall path
      ensures FileAt(copy, path) == if Included(path) then FileAt(source, path) else None
    {
      if FileAt(source, path).Some? {
        ListedExactly(source, path, sha);
      }
    }
  }

  lemma ListedExactly(source: seq<Named>, path: seq<string>, sha: string -> string)
    requires WellFormed(source) && FileAt(source, path).Some?
    ensures Among(path, Enumerate(source, sha)) <==> Included(path)
  {
    hide WellFormed, Walk, Join, Included, FileAt, SortBy;
    var files := Enumerate(source, sha);
    FileAtNames(source, path);
    NotEmpty(source, path);
    SameMembers(Walk(source, "", sha), PATH);
    if Included(path) {
      WalkComplete(source, "", path, sha);
      assert "" + Join(path) == Join(path);
      var f := Describe(Join(path), FileAt(source, path).value, sha);
      assert f in files;
    }
    if Among(path, files) {
      var i :| 0 <= i < |files| && files[i].relativePath == Join(path);
      assert files[i] in files;
      var segments := WalkSound(source, "", files[i], sha);
      assert "" + Join(segments) == Join(segments);
      FileAtNames(source, segments);
      NotEmpty(source, segments);
      JoinInjective(path, segments);
    }
  }

  /** A copy enumerates as its source does, whatever else is built beside it under excluded names: an untouched
      installation recomputes the digest it was installed under. */
  lemma CopyRoundTrip(
    source: seq<Named>, copy: seq<Named>, installed: seq<Named>, sha: string -> string, digestManifest: seq<BundleFile> -> string)
    requires WellFormed(source) && WellFormed(copy) && WellFormed(installed)
    requires CopyOf(copy, source) && Alike(copy, installed)
    ensures Enumerate(copy, sha) == Enumerate(source, sha)
    ensures BundleDigest(installed, sha, digestManifest) == BundleDigest(source, sha, digestManifest)
  {
    hide WellFormed, Alike, Included, FileAt, Enumerate;
    EnumerationDeterminedByContents(copy, source, sha);
    ExcludedFilesDoNotCount(copy, installed, sha);
  }

  /** And with collision-free digests, an installation whose included files changed in any way does not. */
  lemma ChangedInstallationIsCaught(
    source: seq<Named>, installed: seq<Named>, sha: string -> string, digestManifest: seq<BundleFile> -> string)
    requires WellFormed(source) && WellFormed(installed) && Injective(sha)
    requires Injective(digestManifest)
    ensures BundleDigest(installed, sha, digestManifest) == BundleDigest(source, sha, digestManifest) <==> SameIncluded(installed, source)
  {
    hide WellFormed, Included, FileAt, Enumerate;
    EnumerationExact(installed, source, sha);
  }
}
