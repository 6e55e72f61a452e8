/** Small concrete trees, worked through both modes with the default ignore
    list. Directory listings are in sorted name order, as the walk lists
    them. */
module Scenarios {
  import opened Wrappers
  import opened Strings
  import opened FileTree
  import opened Walk
  import opened Renderer
  import opened Dumper
  import opened Cli

  function File(name: string, text: string): Entry {
    Entry(name, false, false, Text(text), [])
  }

  function Dir(name: string, children: seq<Entry>): Entry {
    Entry(name, true, false, Text(""), children)
  }

  /** The line of a top-level entry. */
  lemma TopLine(name: string, isDir: bool)
    requires '/' !in name
    ensures EntryLine(RelPath([name]), name, isDir) == Leaf + name + (if isDir then "/\n" else "\n")
  {
    EntryLineShape([name], isDir);
  }

  /** The line of an entry one directory down. */
  lemma NestedLine(parent: string, name: string, isDir: bool)
    requires '/' !in parent && '/' !in name
    ensures EntryLine(RelPath([parent, name]), name, isDir) == Blank + Leaf + name + (if isDir then "/\n" else "\n")
  {
    EntryLineShape([parent, name], isDir);
    assert Repeat(Blank, 1) == Blank;
  }

  /** A root named "proj" is rendered as its line followed by its walk. */
  lemma RootLine(root: Entry, o: Options)
    requires root.isDir && !root.fault && root.name == "proj"
    ensures var w := RenderForest(root.children, [], o);
      Render(Some(root), "proj", None, o) == Report(["proj/\n"] + w.out, w.error)
  {
    assert "proj" != ".";
    assert "proj" + "/\n" == "proj/\n";
  }

  /** One step of the renderer's walk: a kept file writes its line. */
  lemma KeptFileStep(es: seq<Entry>, dir: seq<string>, o: Options)
    requires |es| >= 1 && !es[0].fault && !es[0].isDir
    requires Decide(es[0].name, false, o) == Keep
    ensures var rest := RenderForest(es[1..], dir, o);
      RenderForest(es, dir, o) ==
        Walked([EntryLine(RelPath(dir + [es[0].name]), es[0].name, false)] + rest.out, rest.error)
  {
    var rest := RenderForest(es[1..], dir, o);
    if rest.error.None? {
      assert [EntryLine(RelPath(dir + [es[0].name]), es[0].name, false)] + [] + rest.out ==
             [EntryLine(RelPath(dir + [es[0].name]), es[0].name, false)] + rest.out;
    }
  }

  /** One step of the renderer's walk: a kept directory writes its line, then
      its subtree, when the subtree's walk succeeds. */
  lemma KeptDirStep(es: seq<Entry>, dir: seq<string>, o: Options)
    requires |es| >= 1 && !es[0].fault && es[0].isDir
    requires Decide(es[0].name, true, o) == Keep
    requires RenderForest(es[0].children, dir + [es[0].name], o).error.None?
    ensures var sub := RenderForest(es[0].children, dir + [es[0].name], o);
      var rest := RenderForest(es[1..], dir, o);
      RenderForest(es, dir, o) ==
        Walked([EntryLine(RelPath(dir + [es[0].name]), es[0].name, true)] + sub.out + rest.out, rest.error)
  {
  }

  /** One step of the renderer's walk: a dropped entry writes nothing. */
  lemma DroppedStep(es: seq<Entry>, dir: seq<string>, o: Options)
    requires |es| >= 1 && !es[0].fault
    requires Decide(es[0].name, es[0].isDir, o) != Keep
    ensures RenderForest(es, dir, o) == RenderForest(es[1..], dir, o)
  {
  }

  // Facts about the literal names and lines of the scenarios below.

  /** A top-level file whose name neither starts with '.' nor holds '/':
      it is not hidden, and `line` is its rendered line. */
  lemma TopFileFacts(name: string, line: string)
    requires |name| > 0 && name[0] != '.' && '/' !in name
    requires line == "└── " + name + "\n"
    ensures !IsHidden(name)
    ensures line == Leaf + name + "\n"
  {
    HiddenIffLeadingDot(name);
  }

  lemma CacheFacts()
    ensures '/' !in ".cache" && IsHidden(".cache") && ".cache" !in DefaultIgnoredDirs
    ensures "└── .cache/\n" == Leaf + ".cache" + "/\n"
  {
    HiddenIffLeadingDot(".cache");
  }

  lemma SecretFacts()
    ensures '/' !in "secret.txt" && !IsHidden("secret.txt")
    ensures "    └── secret.txt\n" == Blank + Leaf + "secret.txt" + "\n"
  {
    HiddenIffLeadingDot("secret.txt");
  }

  /** A root holding `a.txt` and a hidden directory `.cache` with
      `secret.txt`, hidden entries excluded: only `a.txt` is shown. */
  lemma HiddenCacheExcluded()
    ensures var root := Dir("proj", [Dir(".cache", [File("secret.txt", "s")]), File("a.txt", "a")]);
      Render(Some(root), "proj", None, Options(false, DefaultIgnoredDirs)) ==
        Report(["proj/\n", "└── a.txt\n"], None)
  {
    var o := Options(false, DefaultIgnoredDirs);
    var cache := Dir(".cache", [File("secret.txt", "s")]);
    var a := File("a.txt", "a");
    CacheFacts();
    TopFileFacts("a.txt", "└── a.txt\n");
    assert Decide(".cache", true, o) == Prune;
    assert Decide("a.txt", false, o) == Keep;
    TopLine("a.txt", false);
    assert [] + ["a.txt"] == ["a.txt"];
    assert [a][1..] == [];
    assert RenderForest([a], [], o) == Walked(["└── a.txt\n"], None) by {
      assert ["└── a.txt\n"] + [] + [] == ["└── a.txt\n"];
    }
    assert [cache, a][1..] == [a];
    assert RenderForest([cache, a], [], o) == Walked(["└── a.txt\n"], None);
    RootLine(Dir("proj", [cache, a]), o);
    assert ["proj/\n"] + ["└── a.txt\n"] == ["proj/\n", "└── a.txt\n"];
  }

  /** Walking `.cache` holding `secret.txt`, everything included. */
  lemma SecretWalk()
    ensures RenderForest([File("secret.txt", "s")], [".cache"], Options(true, DefaultIgnoredDirs)) ==
      Walked(["    └── secret.txt\n"], None)
  {
    var o := Options(true, DefaultIgnoredDirs);
    var secret := File("secret.txt", "s");
    SecretFacts();
    CacheFacts();
    assert Decide("secret.txt", false, o) == Keep;
    KeptFileStep([secret], [".cache"], o);
    assert [secret][1..] == [];
    assert [".cache"] + ["secret.txt"] == [".cache", "secret.txt"];
    NestedLine(".cache", "secret.txt", false);
    assert ["    └── secret.txt\n"] + [] == ["    └── secret.txt\n"];
  }

  /** Walking a lone `a.txt` at the top, hidden entries included. */
  lemma ATxtWalk()
    ensures RenderForest([File("a.txt", "a")], [], Options(true, DefaultIgnoredDirs)) ==
      Walked(["└── a.txt\n"], None)
  {
    TopFileFacts("a.txt", "└── a.txt\n");
    TopFileWalk(File("a.txt", "a"), Options(true, DefaultIgnoredDirs));
  }

  /** Walking the root's children with hidden entries included. */
  lemma CacheForestWalk()
    ensures RenderForest([Dir(".cache", [File("secret.txt", "s")]), File("a.txt", "a")], [],
                         Options(true, DefaultIgnoredDirs)) ==
      Walked(["└── .cache/\n", "    └── secret.txt\n", "└── a.txt\n"], None)
  {
    var o := Options(true, DefaultIgnoredDirs);
    var cache := Dir(".cache", [File("secret.txt", "s")]);
    var a := File("a.txt", "a");
    var l1, l2, l3 := "└── .cache/\n", "    └── secret.txt\n", "└── a.txt\n";
    SecretWalk();
    ATxtWalk();
    CacheFacts();
    assert Decide(".cache", true, o) == Keep;
    assert [] + [".cache"] == [".cache"];
    KeptDirStep([cache, a], [], o);
    assert [cache, a][1..] == [a];
    TopLine(".cache", true);
    assert [l1] + [l2] + [l3] == [l1, l2, l3];
  }

  /** The same root with hidden entries included: `.cache/` is shown, then
      `secret.txt` one level deeper, then `a.txt`. */
  lemma HiddenCacheIncluded()
    ensures var root := Dir("proj", [Dir(".cache", [File("secret.txt", "s")]), File("a.txt", "a")]);
      Render(Some(root), "proj", None, Options(true, DefaultIgnoredDirs)) ==
        Report(["proj/\n", "└── .cache/\n", "    └── secret.txt\n", "└── a.txt\n"], None)
  {
    var o := Options(true, DefaultIgnoredDirs);
    var l1, l2, l3 := "└── .cache/\n", "    └── secret.txt\n", "└── a.txt\n";
    CacheForestWalk();
    RootLine(Dir("proj", [Dir(".cache", [File("secret.txt", "s")]), File("a.txt", "a")]), o);
    assert ["proj/\n"] + [l1, l2, l3] == ["proj/\n", l1, l2, l3];
  }

  /** Walking a lone top-level file that the filter keeps: its line alone. */
  lemma TopFileWalk(e: Entry, o: Options)
    requires !e.fault && !e.isDir && '/' !in e.name
    requires Decide(e.name, false, o) == Keep
    ensures RenderForest([e], [], o) == Walked([Leaf + e.name + "\n"], None)
  {
    KeptFileStep([e], [], o);
    assert [e][1..] == [];
    assert [] + [e.name] == [e.name];
    TopLine(e.name, false);
    assert [Leaf + e.name + "\n"] + [] == [Leaf + e.name + "\n"];
  }

  /** Walking a lone `package-lock.json` at the top. */
  lemma LockWalk()
    ensures RenderForest([File("package-lock.json", "{}")], [], Options(true, DefaultIgnoredDirs)) ==
      Walked(["└── package-lock.json\n"], None)
  {
    TopFileFacts("package-lock.json", "└── package-lock.json\n");
    TopFileWalk(File("package-lock.json", "{}"), Options(true, DefaultIgnoredDirs));
  }

  /** Walking `node_modules` and `package-lock.json`: the directory is pruned,
      the file is kept. */
  lemma IgnoredForestWalk()
    ensures RenderForest([Dir("node_modules", [Dir("pkg", [File("index.js", "x")])]),
                          File("package-lock.json", "{}")], [], Options(true, DefaultIgnoredDirs)) ==
      Walked(["└── package-lock.json\n"], None)
  {
    var o := Options(true, DefaultIgnoredDirs);
    var nm := Dir("node_modules", [Dir("pkg", [File("index.js", "x")])]);
    var lock := File("package-lock.json", "{}");
    LockWalk();
    assert "node_modules" in DefaultIgnoredDirs;
    assert Decide("node_modules", true, o) == Prune;
    DroppedStep([nm, lock], [], o);
    assert [nm, lock][1..] == [lock];
  }

  /** `node_modules/pkg/index.js` is pruned by the default ignore list even
      with hidden entries included, while a file named like the default
      `package-lock.json` is still shown: the ignore list prunes directories
      only. */
  lemma IgnoredScenario()
    ensures var root := Dir("proj", [Dir("node_modules", [Dir("pkg", [File("index.js", "x")])]),
                                     File("package-lock.json", "{}")]);
      Render(Some(root), "proj", None, Options(true, DefaultIgnoredDirs)) ==
        Report(["proj/\n", "└── package-lock.json\n"], None)
  {
    var l := "└── package-lock.json\n";
    IgnoredForestWalk();
    RootLine(Dir("proj", [Dir("node_modules", [Dir("pkg", [File("index.js", "x")])]),
                          File("package-lock.json", "{}")]), Options(true, DefaultIgnoredDirs));
    assert ["proj/\n"] + [l] == ["proj/\n", l];
  }

  /** One step of the dumper's walk: a kept file with an allowed extension
      and readable text contributes its block. */
  lemma DumpedFileStep(es: seq<Entry>, dir: seq<string>, o: Options)
    requires |es| >= 1 && !es[0].fault && !es[0].isDir && es[0].content.Text?
    requires Decide(es[0].name, false, o) == Keep
    requires Ext(es[0].name) in AllowedExtensions
    ensures DumpForest(es, dir, o) ==
      AndThen(Success([Block(RelPath(dir + [es[0].name]), es[0].content.text)]), DumpForest(es[1..], dir, o))
  {
  }

  /** `readme.md` is a visible file with an allowed extension. */
  lemma ReadmeName()
    ensures Ext("readme.md") == ".md" && ".md" in AllowedExtensions
    ensures !IsHidden("readme.md")
  {
    assert "readme.md" == "readme" + "." + "md";
    ExtAfterLastDot("readme", "md");
    HiddenIffLeadingDot("readme.md");
  }

  /** The block written for the top-level `readme.md` with text "hello". */
  lemma ReadmeBlock()
    ensures Block(RelPath([] + ["readme.md"]), "hello") == "readme.md:\n\n```\nhello\n```\n\n"
  {
    assert [] + ["readme.md"] == ["readme.md"];
  }

  /** Dumping a root that holds only `readme.md` with text "hello". */
  lemma ReadmeScenario()
    ensures Dump(Some(Dir("proj", [File("readme.md", "hello")])), Options(false, DefaultIgnoredDirs)) ==
      Success("readme.md:\n\n```\nhello\n```\n\n")
  {
    var o := Options(false, DefaultIgnoredDirs);
    var e := File("readme.md", "hello");
    var b := Block(RelPath([] + ["readme.md"]), "hello");
    ReadmeName();
    ReadmeBlock();
    assert Decide("readme.md", false, o) == Keep;
    DumpedFileStep([e], [], o);
    assert [e][1..] == [];
    assert [b] + [] == [b];
    assert DumpForest([e], [], o) == Success([b]);
    assert [b][1..] == [];
    assert Concat([b]) == b;
  }

  /** `notes.md` has an allowed extension. */
  lemma NotesDumped()
    ensures Ext("notes.md") == ".md" && ".md" in AllowedExtensions
  {
    assert "notes.md" == "notes" + "." + "md";
    ExtAfterLastDot("notes", "md");
  }

  /** Only the last extension counts. */
  lemma LastExtensionCounts()
    ensures Ext("archive.tar.json") == ".json" && ".json" in AllowedExtensions
  {
    assert "archive.tar.json" == "archive.tar" + "." + "json";
    ExtAfterLastDot("archive.tar", "json");
  }

  /** `image.png` is never dumped. */
  lemma ImageNotDumped()
    ensures Ext("image.png") == ".png" && ".png" !in AllowedExtensions
  {
    assert "image.png" == "image" + "." + "png";
    ExtAfterLastDot("image", "png");
  }

  /** The comparison is case-sensitive. */
  lemma UpperCaseNotDumped()
    ensures Ext("NOTES.MD") == ".MD" && ".MD" !in AllowedExtensions
  {
    assert "NOTES.MD" == "NOTES" + "." + "MD";
    ExtAfterLastDot("NOTES", "MD");
  }

  /** A name without a dot has no extension. */
  lemma NoDotNotDumped()
    ensures Ext("Makefile") == "" && "" !in AllowedExtensions
  {
    assert '.' !in "Makefile";
  }
}
