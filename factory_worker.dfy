/**
 * The configuration-building worker of the checker factory: the part that, after
 * a configuration tree has been parsed, makes the `file` attribute of each
 * SuppressionFilter declaration resolvable.
 *
 * The file system is a set of existing paths together with the two path
 * operations the worker uses: `new File(dir, name)` (join) and getAbsolutePath()
 * (absolute). The IDE's module model is reduced to the values the search reads.
 */
module FactoryWorker {
  import opened Wrappers
  import opened Configurations
  import opened Notifications

  type Path = string

  const SuppressionFilterElement: string := "SuppressionFilter"
  const FileAttribute: string := "file"

  /** The parts of an IDE module the search consults, each possibly absent. */
  datatype ModuleContext = ModuleContext(
    contentRoots: seq<Path>,
    moduleFileParent: Option<Path>,
    projectBaseDir: Option<Path>)

  datatype FileSystem = FileSystem(
    existing: set<Path>,
    join: (Path, string) -> Path,
    absolute: Path -> Path)

  /** What the worker was created with: the base directory of the location and the module (null: None). */
  datatype Context = Context(baseDir: Option<Path>, owner: Option<ModuleContext>)

  /** The file system reports the absolute form of an existing file as existing. */
  ghost predicate AbsoluteClosed(fs: FileSystem)
  {
    forall p :: p in fs.existing ==> fs.absolute(p) in fs.existing
  }

  // ---------------------------------------------------------------------------
  // Where a suppression file is looked for
  // ---------------------------------------------------------------------------

  function ContentRootCandidates(roots: seq<Path>, fileName: string, fs: FileSystem): (r: seq<Path>)
    ensures |r| == |roots|
    ensures forall k :: 0 <= k < |roots| ==> r[k] == fs.join(roots[k], fileName)
  {
    seq(|roots|, k requires 0 <= k < |roots| => fs.join(roots[k], fileName))
  }

  function OptionalCandidate(dir: Option<Path>, fileName: string, fs: FileSystem): (r: seq<Path>)
    ensures dir.None? ==> r == []
    ensures dir.Some? ==> r == [fs.join(dir.value, fileName)]
  {
    if dir.Some? then [fs.join(dir.value, fileName)] else []
  }

  /**
   * Every place the search looks, in its order of priority: the location's base
   * directory, then (only with a module) each content root in order, the
   * directory of the module file and the project's base directory.
   */
  function Candidates(fileName: string, ctx: Context, fs: FileSystem): (r: seq<Path>)
    ensures forall c :: c in r ==> exists dir :: c == fs.join(dir, fileName)
    ensures ctx.baseDir.Some? ==> |r| > 0 && r[0] == fs.join(ctx.baseDir.value, fileName)
    ensures ctx.owner.None? ==> |r| <= 1
    ensures ctx.owner.Some? ==> |r| >= |ctx.owner.value.contentRoots|
  {
    OptionalCandidate(ctx.baseDir, fileName, fs)
    + (if ctx.owner.Some? then ContentRootCandidates(ctx.owner.value.contentRoots, fileName, fs) else [])
    + (if ctx.owner.Some? then OptionalCandidate(ctx.owner.value.moduleFileParent, fileName, fs) else [])
    + (if ctx.owner.Some? then OptionalCandidate(ctx.owner.value.projectBaseDir, fileName, fs) else [])
  }

  /** The first candidate that exists, if any. */
  function FirstExisting(candidates: seq<Path>, existing: set<Path>): (r: Option<Path>)
    ensures r.None? <==> forall j :: 0 <= j < |candidates| ==> candidates[j] !in existing
    ensures r.Some? ==> r.value in existing && r.value in candidates
  {
    if candidates == [] then None
    else if candidates[0] in existing then Some(candidates[0])
    else FirstExisting(candidates[1..], existing)
  }

  /** A candidate that exists wins over every later one. */
  lemma {:induction false} FirstExistingIsFirst(candidates: seq<Path>, existing: set<Path>, k: nat)
    requires k < |candidates| && candidates[k] in existing
    requires forall j :: 0 <= j < k ==> candidates[j] !in existing
    ensures FirstExisting(candidates, existing) == Some(candidates[k])
  {
    if k > 0 {
      FirstExistingIsFirst(candidates[1..], existing, k - 1);
    }
  }

  /** Searching a concatenation searches the second part only when the first finds nothing. */
  lemma {:induction false} FirstExistingAppend(a: seq<Path>, b: seq<Path>, existing: set<Path>)
    ensures FirstExisting(a + b, existing)
         == if FirstExisting(a, existing).Some? then FirstExisting(a, existing) else FirstExisting(b, existing)
  {
    if a != [] {
      assert (a + b)[0] == a[0];
      assert (a + b)[1..] == a[1..] + b;
      FirstExistingAppend(a[1..], b, existing);
    } else {
      assert a + b == b;
    }
  }

  /** The file getSuppressionFile returns for `fileName`. */
  function Search(fileName: string, ctx: Context, fs: FileSystem): (r: Option<Path>)
    ensures r.None? <==> forall c :: c in Candidates(fileName, ctx, fs) ==> c !in fs.existing
    ensures r.Some? ==> r.value in fs.existing && r.value in Candidates(fileName, ctx, fs)
  {
    FirstExisting(Candidates(fileName, ctx, fs), fs.existing)
  }

  /**
   * getSuppressionFile: tries the candidate directories one after the other and
   * keeps the first joined path that exists.
   */
  method GetSuppressionFile(fileName: string, ctx: Context, fs: FileSystem) returns (suppressionFile: Option<Path>)
    ensures suppressionFile == Search(fileName, ctx, fs)
    ensures suppressionFile.Some? ==> suppressionFile.value in fs.existing
  {
    ghost var base := OptionalCandidate(ctx.baseDir, fileName, fs);
    suppressionFile := None;

    // relative to the configuration
    if ctx.baseDir.Some? {
      var configFileRelativePath := fs.join(ctx.baseDir.value, fileName);
      if configFileRelativePath in fs.existing {
        suppressionFile := Some(configFileRelativePath);
      }
    }
    assert suppressionFile == FirstExisting(base, fs.existing);

    if ctx.owner.Some? {
      var owner := ctx.owner.value;
      ghost var roots := ContentRootCandidates(owner.contentRoots, fileName, fs);
      ghost var moduleFile := OptionalCandidate(owner.moduleFileParent, fileName, fs);
      ghost var project := OptionalCandidate(owner.projectBaseDir, fileName, fs);

      // module content roots
      if suppressionFile.None? && |owner.contentRoots| > 0 {
        var i := 0;
        while i < |owner.contentRoots|
          invariant 0 <= i <= |owner.contentRoots|
          invariant forall j :: 0 <= j < i ==> roots[j] !in fs.existing
        {
          var contentEntryPath := fs.join(owner.contentRoots[i], fileName);
          if contentEntryPath in fs.existing {
            suppressionFile := Some(contentEntryPath);
            FirstExistingIsFirst(roots, fs.existing, i);
            break;
          }
          i := i + 1;
        }
      }
      FirstExistingAppend(base, roots, fs.existing);
      assert suppressionFile == FirstExisting(base + roots, fs.existing);

      // the module file's directory
      if suppressionFile.None? && owner.moduleFileParent.Some? {
        var moduleRelativePath := fs.join(owner.moduleFileParent.value, fileName);
        if moduleRelativePath in fs.existing {
          suppressionFile := Some(moduleRelativePath);
        }
      }
      FirstExistingAppend(base + roots, moduleFile, fs.existing);
      assert suppressionFile == FirstExisting(base + roots + moduleFile, fs.existing);

      // the project's base directory
      if suppressionFile.None? && owner.projectBaseDir.Some? {
        var projectRelativePath := fs.join(owner.projectBaseDir.value, fileName);
        if projectRelativePath in fs.existing {
          suppressionFile := Some(projectRelativePath);
        }
      }
      FirstExistingAppend(base + roots + moduleFile, project, fs.existing);
      assert Candidates(fileName, ctx, fs) == base + roots + moduleFile + project;
    } else {
      assert Candidates(fileName, ctx, fs) == base;
    }
  }

  /** A file next to the configuration is preferred to every module-derived location. */
  lemma BaseDirWins(fileName: string, ctx: Context, fs: FileSystem)
    requires ctx.baseDir.Some? && fs.join(ctx.baseDir.value, fileName) in fs.existing
    ensures Search(fileName, ctx, fs) == Some(fs.join(ctx.baseDir.value, fileName))
  {
    FirstExistingIsFirst(Candidates(fileName, ctx, fs), fs.existing, 0);
  }

  /**
   * When nothing exists next to the configuration, the first content root (in the
   * module's order) holding the file decides, ahead of the module file and the
   * project directories.
   */
  lemma ContentRootsInOrder(fileName: string, ctx: Context, fs: FileSystem, k: nat)
    requires ctx.baseDir.Some? ==> fs.join(ctx.baseDir.value, fileName) !in fs.existing
    requires ctx.owner.Some? && k < |ctx.owner.value.contentRoots|
    requires fs.join(ctx.owner.value.contentRoots[k], fileName) in fs.existing
    requires forall j :: 0 <= j < k ==> fs.join(ctx.owner.value.contentRoots[j], fileName) !in fs.existing
    ensures Search(fileName, ctx, fs) == Some(fs.join(ctx.owner.value.contentRoots[k], fileName))
  {
    var base := OptionalCandidate(ctx.baseDir, fileName, fs);
    var all := Candidates(fileName, ctx, fs);
    assert all[|base| + k] == fs.join(ctx.owner.value.contentRoots[k], fileName);
    FirstExistingIsFirst(all, fs.existing, |base| + k);
  }

  /**
   * When neither the base directory nor any content root holds the file, the
   * directory of the module file is preferred to the project's base directory.
   */
  lemma ModuleFileBeforeProject(fileName: string, ctx: Context, fs: FileSystem)
    requires ctx.baseDir.Some? ==> fs.join(ctx.baseDir.value, fileName) !in fs.existing
    requires ctx.owner.Some? && ctx.owner.value.moduleFileParent.Some?
    requires forall j :: 0 <= j < |ctx.owner.value.contentRoots| ==>
      fs.join(ctx.owner.value.contentRoots[j], fileName) !in fs.existing
    requires fs.join(ctx.owner.value.moduleFileParent.value, fileName) in fs.existing
    ensures Search(fileName, ctx, fs) == Some(fs.join(ctx.owner.value.moduleFileParent.value, fileName))
  {
    var base := OptionalCandidate(ctx.baseDir, fileName, fs);
    var roots := ContentRootCandidates(ctx.owner.value.contentRoots, fileName, fs);
    var all := Candidates(fileName, ctx, fs);
    var k := |base| + |roots|;
    assert all[k] == fs.join(ctx.owner.value.moduleFileParent.value, fileName);
    forall j | 0 <= j < k
      ensures all[j] !in fs.existing
    {
      if j >= |base| {
        assert all[j] == roots[j - |base|];
      }
    }
    FirstExistingIsFirst(all, fs.existing, k);
  }

  /**
   * The project's base directory is consulted last: it decides only when every
   * other candidate is missing.
   */
  lemma ProjectBaseDirLast(fileName: string, ctx: Context, fs: FileSystem)
    requires ctx.baseDir.Some? ==> fs.join(ctx.baseDir.value, fileName) !in fs.existing
    requires ctx.owner.Some? && ctx.owner.value.projectBaseDir.Some?
    requires forall j :: 0 <= j < |ctx.owner.value.contentRoots| ==>
      fs.join(ctx.owner.value.contentRoots[j], fileName) !in fs.existing
    requires ctx.owner.value.moduleFileParent.Some? ==>
      fs.join(ctx.owner.value.moduleFileParent.value, fileName) !in fs.existing
    requires fs.join(ctx.owner.value.projectBaseDir.value, fileName) in fs.existing
    ensures Search(fileName, ctx, fs) == Some(fs.join(ctx.owner.value.projectBaseDir.value, fileName))
  {
    var base := OptionalCandidate(ctx.baseDir, fileName, fs);
    var roots := ContentRootCandidates(ctx.owner.value.contentRoots, fileName, fs);
    var moduleFile := OptionalCandidate(ctx.owner.value.moduleFileParent, fileName, fs);
    var all := Candidates(fileName, ctx, fs);
    var k := |base| + |roots| + |moduleFile|;
    assert all[k] == fs.join(ctx.owner.value.projectBaseDir.value, fileName);
    forall j | 0 <= j < k
      ensures all[j] !in fs.existing
    {
      if |base| <= j < |base| + |roots| {
        assert all[j] == roots[j - |base|];
      }
    }
    FirstExistingIsFirst(all, fs.existing, k);
  }

  /** Without a module only the location's base directory is tried. */
  lemma WithoutModuleOnlyBaseDir(fileName: string, ctx: Context, fs: FileSystem)
    requires ctx.owner.None?
    ensures Search(fileName, ctx, fs).Some?
        <==> ctx.baseDir.Some? && fs.join(ctx.baseDir.value, fileName) in fs.existing
    ensures Search(fileName, ctx, fs).Some? ==> Search(fileName, ctx, fs) == Some(fs.join(ctx.baseDir.value, fileName))
  {
    assert Candidates(fileName, ctx, fs) == OptionalCandidate(ctx.baseDir, fileName, fs);
  }

  // ---------------------------------------------------------------------------
  // Rebuilding a SuppressionFilter node with a new file
  // ---------------------------------------------------------------------------

  /** The node suppressionFilterWithFilename builds. */
  function FilterWithFilename(filename: Path, original: Configuration): (r: Configuration)
    ensures r.kind == DefaultConfiguration && r.name == SuppressionFilterElement
    ensures r.children == original.children && r.messages == original.messages
    ensures FileAttribute in r.attributes && r.attributes[FileAttribute] == filename
  {
    Configuration(
      DefaultConfiguration,
      SuppressionFilterElement,
      (original.attributes - {FileAttribute})[FileAttribute := filename],
      original.messages,
      original.children)
  }

  /** The rebuilt node has every attribute of the original but `file`, unchanged, and `file` besides. */
  lemma FilterWithFilenameAttributes(filename: Path, original: Configuration)
    ensures FilterWithFilename(filename, original).attributes.Keys == original.attributes.Keys + {FileAttribute}
    ensures forall a :: a in original.attributes && a != FileAttribute ==>
      FilterWithFilename(filename, original).attributes[a] == original.attributes[a]
  {
  }

  /**
   * suppressionFilterWithFilename: a new DefaultConfiguration named
   * SuppressionFilter receiving the original's children, its messages and every
   * attribute but `file`, then `file` set to the new path. Since each name is
   * added once, no value is ever joined to another.
   */
  method SuppressionFilterWithFilename(filename: Path, original: Configuration) returns (newFilter: Configuration)
    ensures newFilter.kind == DefaultConfiguration && newFilter.name == SuppressionFilterElement
    ensures newFilter.children == original.children
    ensures newFilter.messages == original.messages
    ensures newFilter.attributes.Keys == original.attributes.Keys + {FileAttribute}
    ensures forall a :: a in original.attributes && a != FileAttribute ==> newFilter.attributes[a] == original.attributes[a]
    ensures newFilter.attributes[FileAttribute] == filename
  {
    var children: seq<Configuration> := [];
    for i := 0 to |original.children|
      invariant children == original.children[..i]
    {
      children := children + [original.children[i]];   // addChild
    }
    assert original.children[..|original.children|] == original.children;

    var messages: map<string, string> := map[];
    var messageKeys := original.messages.Keys;
    while messageKeys != {}
      invariant messageKeys <= original.messages.Keys
      invariant messages.Keys == original.messages.Keys - messageKeys
      invariant forall k :: k in messages ==> messages[k] == original.messages[k]
      decreases messageKeys
    {
      var messageKey :| messageKey in messageKeys;
      messages := messages[messageKey := original.messages[messageKey]];   // addMessage
      messageKeys := messageKeys - {messageKey};
    }

    var attributes: map<string, string> := map[];
    var attributeNames := original.attributes.Keys;
    while attributeNames != {}
      invariant attributeNames <= original.attributes.Keys
      invariant attributes.Keys == original.attributes.Keys - attributeNames - {FileAttribute}
      invariant forall a :: a in attributes ==> attributes[a] == original.attributes[a]
      decreases attributeNames
    {
      var attributeName :| attributeName in attributeNames;
      if attributeName != FileAttribute {
        attributes := AddAttribute(attributes, attributeName, original.attributes[attributeName]);
      }
      attributeNames := attributeNames - {attributeName};
    }
    attributes := AddAttribute(attributes, FileAttribute, filename);

    newFilter := Configuration(DefaultConfiguration, SuppressionFilterElement, attributes, messages, children);
  }

  /** The contract of SuppressionFilterWithFilename determines its result. */
  lemma FilterWithFilenameDetermined(c: Configuration, filename: Path, original: Configuration)
    requires c.kind == DefaultConfiguration && c.name == SuppressionFilterElement
    requires c.children == original.children && c.messages == original.messages
    requires c.attributes.Keys == original.attributes.Keys + {FileAttribute}
    requires forall a :: a in original.attributes && a != FileAttribute ==> c.attributes[a] == original.attributes[a]
    requires c.attributes[FileAttribute] == filename
    ensures c == FilterWithFilename(filename, original)
  {
    var expected := FilterWithFilename(filename, original);
    assert c.attributes.Keys == expected.attributes.Keys;
    assert c.attributes == expected.attributes;
  }

  // ---------------------------------------------------------------------------
  // Rewriting the direct children of the root
  // ---------------------------------------------------------------------------

  /**
   * A direct child the rewrite acts on: a SuppressionFilter whose `file`
   * attribute is present and names a path that does not exist.
   */
  predicate NeedsRewrite(child: Configuration, fs: FileSystem)
  {
    child.name == SuppressionFilterElement
    && FileAttribute in child.attributes
    && child.attributes[FileAttribute] !in fs.existing
  }

  /**
   * The three ways a child is skipped: it is not a SuppressionFilter, it has no
   * `file` attribute, or the file it names exists as written; any other child
   * is rewritten.
   */
  lemma SkippedChildren(child: Configuration, fs: FileSystem)
    ensures child.name != SuppressionFilterElement ==> !NeedsRewrite(child, fs)
    ensures FileAttribute !in child.attributes ==> !NeedsRewrite(child, fs)
    ensures FileAttribute in child.attributes && child.attributes[FileAttribute] in fs.existing ==> !NeedsRewrite(child, fs)
    ensures (child.name == SuppressionFilterElement && FileAttribute in child.attributes
      && child.attributes[FileAttribute] !in fs.existing) ==> NeedsRewrite(child, fs)
  {
  }

  /** The node appended for one child: its rebuilt form when a suppression file was found. */
  function ReplacementFor(child: Configuration, ctx: Context, fs: FileSystem): (r: seq<Configuration>)
    ensures |r| <= 1
  {
    if NeedsRewrite(child, fs) then
      match Search(child.attributes[FileAttribute], ctx, fs)
      case Some(found) => [FilterWithFilename(fs.absolute(found), child)]
      case None => []
    else []
  }

  /** The warning raised for one child: a broken filter with no file found, in a module. */
  function WarningFor(child: Configuration, ctx: Context, fs: FileSystem): (r: seq<Notification>)
    ensures |r| <= 1
  {
    if NeedsRewrite(child, fs) && Search(child.attributes[FileAttribute], ctx, fs).None? && ctx.owner.Some?
    then [SuppressionsNotFound]
    else []
  }

  /** Of the first n children, those the rewrite leaves in place, in their order. */
  function Kept(children: seq<Configuration>, n: nat, fs: FileSystem): (r: seq<Configuration>)
    requires n <= |children|
    ensures |r| <= n
  {
    if n == 0 then []
    else Kept(children, n - 1, fs) + (if NeedsRewrite(children[n - 1], fs) then [] else [children[n - 1]])
  }

  /** Of the first n children, the rebuilt filters, in the order of their originals. */
  function Replacements(children: seq<Configuration>, n: nat, ctx: Context, fs: FileSystem): (r: seq<Configuration>)
    requires n <= |children|
    ensures |r| <= n
  {
    if n == 0 then []
    else Replacements(children, n - 1, ctx, fs) + ReplacementFor(children[n - 1], ctx, fs)
  }

  /** The warnings raised for the first n children. */
  function Warnings(children: seq<Configuration>, n: nat, ctx: Context, fs: FileSystem): (r: seq<Notification>)
    requires n <= |children|
    ensures |r| <= n
  {
    if n == 0 then []
    else Warnings(children, n - 1, ctx, fs) + WarningFor(children[n - 1], ctx, fs)
  }

  /**
   * The tree replaceSuppressionFilterPath leaves: a root of another class is not
   * touched; otherwise every broken filter is removed, and the ones whose file was
   * found are re-added, rebuilt, at the end of the child list.
   */
  function Rewritten(root: Configuration, ctx: Context, fs: FileSystem): (r: Configuration)
    ensures r.kind == root.kind && r.name == root.name
    ensures r.attributes == root.attributes && r.messages == root.messages
    ensures root.kind != DefaultConfiguration ==> r == root
  {
    if root.kind != DefaultConfiguration then root
    else
      var n := |root.children|;
      root.(children := Kept(root.children, n, fs) + Replacements(root.children, n, ctx, fs))
  }

  /** The warnings replaceSuppressionFilterPath raises. */
  function RewriteWarnings(root: Configuration, ctx: Context, fs: FileSystem): (r: seq<Notification>)
    ensures |r| <= |root.children|
    ensures root.kind != DefaultConfiguration ==> r == []
  {
    if root.kind != DefaultConfiguration then [] else Warnings(root.children, |root.children|, ctx, fs)
  }

  /** Kept holds exactly the unbroken children among the first n. */
  lemma {:induction false} KeptIsUnbroken(children: seq<Configuration>, n: nat, fs: FileSystem)
    requires n <= |children|
    ensures forall c :: c in Kept(children, n, fs) ==> !NeedsRewrite(c, fs)
    ensures forall k :: 0 <= k < n && !NeedsRewrite(children[k], fs) ==> children[k] in Kept(children, n, fs)
  {
    if n > 0 {
      KeptIsUnbroken(children, n - 1, fs);
    }
  }

  /** Every rebuilt filter names the absolute form of a file that exists. */
  lemma {:induction false} ReplacementsNameExistingFiles(children: seq<Configuration>, n: nat, ctx: Context, fs: FileSystem)
    requires n <= |children|
    ensures forall c :: c in Replacements(children, n, ctx, fs) ==>
      c.name == SuppressionFilterElement && FileAttribute in c.attributes
      && exists p :: p in fs.existing && c.attributes[FileAttribute] == fs.absolute(p)
  {
    if n > 0 {
      ReplacementsNameExistingFiles(children, n - 1, ctx, fs);
    }
  }

  /** Removing the node at hand from the live child list and appending `extra`. */
  lemma RemoveFromLive<T>(kept: seq<T>, child: T, pending: seq<T>, replaced: seq<T>, extra: seq<T>)
    requires child !in kept
    ensures RemoveChild(kept + ([child] + pending) + replaced, child) + extra == kept + pending + (replaced + extra)
  {
    assert kept + ([child] + pending) + replaced == kept + ([child] + (pending + replaced));
    RemoveChildAt(kept, child, pending + replaced);
  }

  /** Keeping the node at hand moves it from the pending part of the live child list to the kept part. */
  lemma KeepInLive<T>(kept: seq<T>, child: T, pending: seq<T>, replaced: seq<T>)
    ensures kept + ([child] + pending) + replaced == (kept + [child]) + pending + replaced
  {
  }

  /** The nodes from position i on are the node at i followed by those after it. */
  lemma SplitAt<T>(s: seq<T>, i: nat)
    requires i < |s|
    ensures s[i..] == [s[i]] + s[i + 1..]
  {
  }

  lemma AppendNothing<T>(s: seq<T>)
    ensures s + [] == s
  {
  }

  /** What a broken filter contributes, once the search for its file gave `found`. */
  lemma BrokenFilterOutcome(child: Configuration, ctx: Context, fs: FileSystem, found: Option<Path>)
    requires NeedsRewrite(child, fs)
    requires found == Search(child.attributes[FileAttribute], ctx, fs)
    ensures ReplacementFor(child, ctx, fs) == if found.Some? then [FilterWithFilename(fs.absolute(found.value), child)] else []
    ensures WarningFor(child, ctx, fs) == if found.None? && ctx.owner.Some? then [SuppressionsNotFound] else []
  {
  }

  /** A node is appended for a child exactly when it is a broken filter whose file was found. */
  lemma ReplacementOnlyWhenFound(child: Configuration, ctx: Context, fs: FileSystem)
    ensures |ReplacementFor(child, ctx, fs)| == 1
      <==> NeedsRewrite(child, fs) && Search(child.attributes[FileAttribute], ctx, fs).Some?
  {
  }

  /** A child is warned about exactly when it is a broken filter found nowhere, in a module. */
  lemma WarningOnlyWhenMissing(child: Configuration, ctx: Context, fs: FileSystem)
    ensures |WarningFor(child, ctx, fs)| == 1
      <==> NeedsRewrite(child, fs) && Search(child.attributes[FileAttribute], ctx, fs).None? && ctx.owner.Some?
    ensures WarningFor(child, ctx, fs) != [] ==> WarningFor(child, ctx, fs) == [SuppressionsNotFound]
  {
  }

  /** Visiting a broken filter: it leaves the live child list, and its replacement, if any, is appended. */
  lemma RewriteBrokenStep(snapshot: seq<Configuration>, i: nat, ctx: Context, fs: FileSystem, extra: seq<Configuration>)
    requires i < |snapshot|
    requires NeedsRewrite(snapshot[i], fs)
    requires extra == ReplacementFor(snapshot[i], ctx, fs)
    ensures RemoveChild(Kept(snapshot, i, fs) + snapshot[i..] + Replacements(snapshot, i, ctx, fs), snapshot[i]) + extra
      == Kept(snapshot, i + 1, fs) + snapshot[i + 1..] + Replacements(snapshot, i + 1, ctx, fs)
    ensures Warnings(snapshot, i + 1, ctx, fs) == Warnings(snapshot, i, ctx, fs) + WarningFor(snapshot[i], ctx, fs)
  {
    KeptIsUnbroken(snapshot, i, fs);
    SplitAt(snapshot, i);
    RemoveFromLive(Kept(snapshot, i, fs), snapshot[i], snapshot[i + 1..], Replacements(snapshot, i, ctx, fs), extra);
  }

  /** Visiting any other child: it moves from the pending part of the live child list to the kept part. */
  lemma RewriteKeepStep(snapshot: seq<Configuration>, i: nat, ctx: Context, fs: FileSystem)
    requires i < |snapshot|
    requires !NeedsRewrite(snapshot[i], fs)
    ensures Kept(snapshot, i, fs) + snapshot[i..] + Replacements(snapshot, i, ctx, fs)
      == Kept(snapshot, i + 1, fs) + snapshot[i + 1..] + Replacements(snapshot, i + 1, ctx, fs)
    ensures Warnings(snapshot, i + 1, ctx, fs) == Warnings(snapshot, i, ctx, fs)
  {
    SplitAt(snapshot, i);
    KeepInLive(Kept(snapshot, i, fs), snapshot[i], snapshot[i + 1..], Replacements(snapshot, i, ctx, fs));
    AppendNothing(Replacements(snapshot, i, ctx, fs));
  }

  /** After the last child the live child list holds the kept children and the replacements. */
  lemma RewriteDone(snapshot: seq<Configuration>, ctx: Context, fs: FileSystem)
    ensures Kept(snapshot, |snapshot|, fs) + snapshot[|snapshot|..] + Replacements(snapshot, |snapshot|, ctx, fs)
      == Kept(snapshot, |snapshot|, fs) + Replacements(snapshot, |snapshot|, ctx, fs)
  {
    assert snapshot[|snapshot|..] == [];
    AppendNothing(Kept(snapshot, |snapshot|, fs));
  }

  /**
   * replaceSuppressionFilterPath: walks a snapshot of the root's direct children;
   * each broken filter is removed from the root and, if its file is found, a
   * rebuilt filter is appended; a filter with no file found in a module raises a
   * warning. The live child list is always the kept children, the children not
   * yet visited and the rebuilt filters, in that order.
   */
  method ReplaceSuppressionFilterPath(root: Configuration, ctx: Context, fs: FileSystem)
    returns (newRoot: Configuration, warnings: seq<Notification>)
    ensures newRoot == Rewritten(root, ctx, fs)
    ensures warnings == RewriteWarnings(root, ctx, fs)
  {
    if root.kind != DefaultConfiguration {
      return root, [];
    }

    var snapshot := root.children;
    var children := root.children;
    warnings := [];
    var i := 0;
    while i < |snapshot|
      invariant 0 <= i <= |snapshot|
      invariant children == Kept(snapshot, i, fs) + snapshot[i..] + Replacements(snapshot, i, ctx, fs)
      invariant warnings == Warnings(snapshot, i, ctx, fs)
    {
      var currentChild := snapshot[i];
      if currentChild.name == SuppressionFilterElement {
        var fileName := if FileAttribute in currentChild.attributes then Some(currentChild.attributes[FileAttribute]) else None;
        if fileName.Some? && fileName.value !in fs.existing {
          var suppressionFile := GetSuppressionFile(fileName.value, ctx, fs);
          if suppressionFile.Some? {
            var newFilter := SuppressionFilterWithFilename(fs.absolute(suppressionFile.value), currentChild);
            FilterWithFilenameDetermined(newFilter, fs.absolute(suppressionFile.value), currentChild);
            BrokenFilterOutcome(currentChild, ctx, fs, suppressionFile);
            RewriteBrokenStep(snapshot, i, ctx, fs, [newFilter]);
            children := RemoveChild(children, currentChild) + [newFilter];
          } else {
            BrokenFilterOutcome(currentChild, ctx, fs, suppressionFile);
            RewriteBrokenStep(snapshot, i, ctx, fs, []);
            children := RemoveChild(children, currentChild);
            if ctx.owner.Some? {
              warnings := warnings + [SuppressionsNotFound];
            }
          }
        } else {
          RewriteKeepStep(snapshot, i, ctx, fs);
        }
      } else {
        RewriteKeepStep(snapshot, i, ctx, fs);
      }
      i := i + 1;
    }
    RewriteDone(snapshot, ctx, fs);
    newRoot := root.(children := children);
  }

  // ---------------------------------------------------------------------------
  // Properties of the rewrite
  // ---------------------------------------------------------------------------

  /** Children without broken filters are left exactly as they are, without warnings. */
  lemma {:induction false} NothingBrokenNothingChanged(children: seq<Configuration>, n: nat, ctx: Context, fs: FileSystem)
    requires n <= |children|
    requires forall k :: 0 <= k < n ==> !NeedsRewrite(children[k], fs)
    ensures Kept(children, n, fs) == children[..n]
    ensures Replacements(children, n, ctx, fs) == []
    ensures Warnings(children, n, ctx, fs) == []
  {
    if n > 0 {
      NothingBrokenNothingChanged(children, n - 1, ctx, fs);
      assert children[..n] == children[..n - 1] + [children[n - 1]];
    }
  }

  /**
   * With a file system that reports absolute forms of existing files as
   * existing, no child of a rewritten root is a broken filter.
   */
  lemma RewrittenHasNoBrokenFilter(root: Configuration, ctx: Context, fs: FileSystem)
    requires AbsoluteClosed(fs)
    requires root.kind == DefaultConfiguration
    ensures forall c :: c in Rewritten(root, ctx, fs).children ==> !NeedsRewrite(c, fs)
  {
    var n := |root.children|;
    var kept := Kept(root.children, n, fs);
    var replaced := Replacements(root.children, n, ctx, fs);
    KeptIsUnbroken(root.children, n, fs);
    ReplacementsNameExistingFiles(root.children, n, ctx, fs);
    forall c | c in kept + replaced
      ensures !NeedsRewrite(c, fs)
    {
      if c in replaced {
        var p :| p in fs.existing && c.attributes[FileAttribute] == fs.absolute(p);
      }
    }
  }

  /** Rewriting an already rewritten tree changes nothing and raises no warning. */
  lemma RewriteIdempotent(root: Configuration, ctx: Context, fs: FileSystem)
    requires AbsoluteClosed(fs)
    ensures Rewritten(Rewritten(root, ctx, fs), ctx, fs) == Rewritten(root, ctx, fs)
    ensures RewriteWarnings(Rewritten(root, ctx, fs), ctx, fs) == []
  {
    if root.kind == DefaultConfiguration {
      var once := Rewritten(root, ctx, fs);
      RewrittenHasNoBrokenFilter(root, ctx, fs);
      NothingBrokenNothingChanged(once.children, |once.children|, ctx, fs);
      assert once.children[..|once.children|] == once.children;
    }
  }

  /**
   * A broken filter among the first n children never survives the rewrite:
   * it is not kept, and every appended node names a file that exists.
   */
  lemma BrokenFilterDropped(children: seq<Configuration>, n: nat, ctx: Context, fs: FileSystem, k: nat)
    requires AbsoluteClosed(fs)
    requires k < n <= |children| && NeedsRewrite(children[k], fs)
    ensures children[k] !in Kept(children, n, fs) + Replacements(children, n, ctx, fs)
  {
    KeptIsUnbroken(children, n, fs);
    ReplacementsNameExistingFiles(children, n, ctx, fs);
  }

  /** A node appended for one of the first n children is among the appended nodes. */
  lemma {:induction false} ReplacementRetained(children: seq<Configuration>, n: nat, ctx: Context, fs: FileSystem)
    requires n <= |children|
    ensures forall k, x :: 0 <= k < n && x in ReplacementFor(children[k], ctx, fs) ==> x in Replacements(children, n, ctx, fs)
  {
    if n > 0 {
      ReplacementRetained(children, n - 1, ctx, fs);
      var before := Replacements(children, n - 1, ctx, fs);
      var last := ReplacementFor(children[n - 1], ctx, fs);
      assert Replacements(children, n, ctx, fs) == before + last;
      forall k, x | 0 <= k < n && x in ReplacementFor(children[k], ctx, fs)
        ensures x in before + last
      {
        if k < n - 1 {
          assert x in before;
        } else {
          assert x in last;
        }
      }
    }
  }

  /**
   * A broken filter whose file was found is replaced: its rebuilt node,
   * pointing at the file's absolute path, is among the appended nodes.
   */
  lemma FoundFilterReplaced(children: seq<Configuration>, n: nat, ctx: Context, fs: FileSystem, k: nat)
    requires k < n <= |children| && NeedsRewrite(children[k], fs)
    requires Search(children[k].attributes[FileAttribute], ctx, fs).Some?
    ensures FilterWithFilename(fs.absolute(Search(children[k].attributes[FileAttribute], ctx, fs).value), children[k])
      in Replacements(children, n, ctx, fs)
  {
    var found := Search(children[k].attributes[FileAttribute], ctx, fs);
    BrokenFilterOutcome(children[k], ctx, fs, found);
    ReplacementRetained(children, n, ctx, fs);
  }

  /** In a module, every direct child is either kept, replaced or warned about. */
  lemma {:induction false} EveryChildAccountedFor(children: seq<Configuration>, n: nat, ctx: Context, fs: FileSystem)
    requires n <= |children|
    requires ctx.owner.Some?
    ensures |Kept(children, n, fs)| + |Replacements(children, n, ctx, fs)| + |Warnings(children, n, ctx, fs)| == n
  {
    if n > 0 {
      EveryChildAccountedFor(children, n - 1, ctx, fs);
    }
  }

  /** The only warning the rewrite raises is the missing-suppressions one. */
  lemma {:induction false} WarningsAreSuppressionsNotFound(children: seq<Configuration>, n: nat, ctx: Context, fs: FileSystem)
    requires n <= |children|
    ensures forall w :: w in Warnings(children, n, ctx, fs) ==> w == SuppressionsNotFound
  {
    if n > 0 {
      WarningsAreSuppressionsNotFound(children, n - 1, ctx, fs);
    }
  }

  /** Without a module, a filter whose file is found nowhere is dropped silently. */
  lemma {:induction false} NoWarningWithoutModule(children: seq<Configuration>, n: nat, ctx: Context, fs: FileSystem)
    requires n <= |children|
    requires ctx.owner.None?
    ensures Warnings(children, n, ctx, fs) == []
  {
    if n > 0 {
      NoWarningWithoutModule(children, n - 1, ctx, fs);
    }
  }
}
