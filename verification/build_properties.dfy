/**
 * Properties of the tree builder that relate several calls or quantify over
 * whole directory trees: where a type node lands, when the build fails, and
 * why the order in which the file system lists a directory does not matter.
 */
module BuildProperties {
  import opened Results
  import opened Strings
  import opened Sorting
  import opened Language
  import opened ModelTree
  import opened NestableTypes

  // ---------------------------------------------------------------------
  // Processing order

  /**
   * In the processing order an entry whose name holds fewer `+` comes
   * before one holding more: `A.json` is handled before `A+B.json`.
   */
  lemma ContainerProcessedFirst(listing: seq<Entry>, a: Entry, b: Entry)
    requires a in listing && b in listing
    requires NestingDepth(a.name) < NestingDepth(b.name)
    ensures exists i, j :: 0 <= i < j < |SortByDepth(listing)| && SortByDepth(listing)[i] == a && SortByDepth(listing)[j] == b
  {
    var sorted := SortByDepth(listing);
    var i :| 0 <= i < |sorted| && sorted[i] == a;
    var j :| 0 <= j < |sorted| && sorted[j] == b;
    SortedDepthFirst(sorted, DepthKey, i, j);
  }

  /** No two entries of one directory share a name. */
  ghost predicate NamesDistinct(listing: seq<Entry>)
  {
    forall i, j :: 0 <= i < |listing| && 0 <= j < |listing| && listing[i].name == listing[j].name ==> i == j
  }

  lemma {:induction false} ParseEntriesIgnoresDirectory(st: BuildState, cur: NodeId, d1: Entry, d2: Entry, listing: seq<Entry>)
    requires d1.Folder? && d2.Folder? && Valid(st.tree) && cur in st.tree.nodes
    requires forall e :: e in listing ==> e in d1.entries && e in d2.entries
    ensures ParseEntries(st, cur, d1, listing) == ParseEntries(st, cur, d2, listing)
    decreases |listing|
  {
    if |listing| > 0 {
      var r := ParseEntry(st, cur, listing[0]);
      if r.Ok? {
        ParseEntriesIgnoresDirectory(r.value, cur, d1, d2, listing[1..]);
      }
    }
  }

  /**
   * The build of a directory does not depend on the order in which its
   * entries are enumerated: any permutation of a listing with distinct
   * names gives the same result, error or tree.
   */
  lemma ListingOrderIrrelevant(st: BuildState, cur: NodeId, name: string, listing: seq<Entry>, permuted: seq<Entry>)
    requires Valid(st.tree) && cur in st.tree.nodes
    requires multiset(permuted) == multiset(listing)
    requires NamesDistinct(listing)
    ensures ParseChildren(st, cur, Folder(name, listing)) == ParseChildren(st, cur, Folder(name, permuted))
  {
    assert KeysDistinct(listing, DepthKey) by {
      forall i, j | 0 <= i < |listing| && 0 <= j < |listing| && DepthKey(listing[i]) == DepthKey(listing[j])
        ensures listing[i] == listing[j]
      {
        assert listing[i].name == listing[j].name;
      }
    }
    SortByKeyIgnoresInputOrder(listing, permuted, DepthKey);
    var sorted := SortByDepth(listing);
    assert sorted == SortByDepth(permuted);
    var st' := st.(namespaces := st.namespaces + [st.tree.nodes[cur].name]);
    ParseEntriesIgnoresDirectory(st', cur, Folder(name, listing), Folder(name, permuted), sorted);
  }

  // ---------------------------------------------------------------------
  // Kind dispatch

  /** A document is rejected with `UnknownTypeKind` exactly when its tag is not one of the five kinds. */
  lemma ParseFileRejectsUnknownKind(st: BuildState, cur: NodeId, fileName: string, doc: TypeDoc)
    requires Valid(st.tree) && cur in st.tree.nodes
    ensures ParseFile(st, cur, fileName, doc) == Err(UnknownTypeKind(doc.tag))
            <==> doc.tag !in {"class", "enum", "interface", "struct", "delegate"}
    ensures ParseFile(st, cur, fileName, doc).Err? && doc.tag in {"class", "enum", "interface", "struct", "delegate"}
            ==> ParseFile(st, cur, fileName, doc).error.DanglingContainingType?
  {
  }

  /** Some document reachable through the directory tree has an unknown kind tag. */
  ghost predicate HasUnknownKind(e: Entry)
  {
    match e
    case File(name, doc) => EndsWith(name, DocumentSuffix) && ParseKind(doc.tag).None?
    case Folder(name, entries) =>
      !EndsWith(name, DocumentSuffix) && exists i :: 0 <= i < |entries| && HasUnknownKind(entries[i])
  }

  lemma {:induction false} ParseEntryFailsOnUnknownKind(st: BuildState, cur: NodeId, e: Entry)
    requires Valid(st.tree) && cur in st.tree.nodes
    requires HasUnknownKind(e)
    ensures ParseEntry(st, cur, e).Err?
    decreases e, 4, 0
  {
    if e.Folder? {
      var (t, child) := Attach(st.tree, cur, e.name, Namespace);
      ParseChildrenFailsOnUnknownKind(st.(tree := t), child, e);
    }
  }

  lemma {:induction false} ParseEntriesFailsOnUnknownKind(st: BuildState, cur: NodeId, dir: Entry, listing: seq<Entry>)
    requires dir.Folder? && Valid(st.tree) && cur in st.tree.nodes
    requires forall e :: e in listing ==> e in dir.entries
    requires exists i :: 0 <= i < |listing| && HasUnknownKind(listing[i])
    ensures ParseEntries(st, cur, dir, listing).Err?
    decreases dir, 1, |listing|
  {
    var e := listing[0];
    assert e in dir.entries;
    assert exists i :: 0 <= i < |dir.entries| && dir.entries[i] == e;
    var r := ParseEntry(st, cur, e);
    if HasUnknownKind(e) {
      ParseEntryFailsOnUnknownKind(st, cur, e);
    } else if r.Ok? {
      var i :| 0 <= i < |listing| && HasUnknownKind(listing[i]);
      assert i != 0;
      assert listing[1..][i - 1] == listing[i];
      ParseEntriesFailsOnUnknownKind(r.value, cur, dir, listing[1..]);
    }
  }

  lemma {:induction false} ParseChildrenFailsOnUnknownKind(st: BuildState, cur: NodeId, dir: Entry)
    requires dir.Folder? && Valid(st.tree) && cur in st.tree.nodes
    requires exists i :: 0 <= i < |dir.entries| && HasUnknownKind(dir.entries[i])
    ensures ParseChildren(st, cur, dir).Err?
    decreases dir, 2, 0
  {
    var i :| 0 <= i < |dir.entries| && HasUnknownKind(dir.entries[i]);
    var sorted := SortByDepth(dir.entries);
    assert dir.entries[i] in sorted;
    var j :| 0 <= j < |sorted| && sorted[j] == dir.entries[i];
    var pushed := st.(namespaces := st.namespaces + [st.tree.nodes[cur].name]);
    ParseEntriesFailsOnUnknownKind(pushed, cur, dir, sorted);
  }

  /** One document with an unknown kind anywhere in the tree aborts the whole build. */
  lemma BuildFailsOnUnknownKind(projectName: string, listing: seq<Entry>)
    requires exists i :: 0 <= i < |listing| && HasUnknownKind(listing[i])
    ensures Build(projectName, listing).Err?
  {
    ParseChildrenFailsOnUnknownKind(BuildState(NewTree(projectName), []), Root, Folder(projectName, listing));
  }

  // ---------------------------------------------------------------------
  // Placement

  /**
   * A document of a known kind whose file name `N1+…+Nk+X` leads from the
   * current node to `host` through the `children` maps is attached under
   * `host`, keyed by its type name, with `host` as parent; nothing else in
   * the tree changes but that one children entry.
   */
  lemma ParseFilePlacement(st: BuildState, cur: NodeId, fileName: string, doc: TypeDoc, host: NodeId)
    requires Valid(st.tree) && cur in st.tree.nodes
    requires ParseKind(doc.tag).Some?
    requires Reaches(st.tree, cur, ContainingTypes(fileName), host)
    ensures ParseFile(st, cur, fileName, doc).Ok?
    ensures
      var t, id, kind := ParseFile(st, cur, fileName, doc).value.tree, st.tree.next, ParseKind(doc.tag).value;
      && host in st.tree.nodes
      && id !in st.tree.nodes && t.nodes.Keys == st.tree.nodes.Keys + {id} && t.next == id + 1
      && t.nodes[id] == Node(doc.name, Some(host), map[], Type(kind, doc.access, WireMembers(kind, id, doc.members)))
      && t.nodes[host].children == st.tree.nodes[host].children[doc.name := id]
      && (forall n :: n in st.tree.nodes && n != host ==> t.nodes[n] == st.tree.nodes[n])
  {
    WalkReaches(st.tree, cur, ContainingTypes(fileName), host);
    var kind := ParseKind(doc.tag).value;
    var body := Type(kind, doc.access, WireMembers(kind, st.tree.next, doc.members));
    ParseFileAttaches(st, cur, fileName, doc, host);
    var t := Attach(st.tree, host, doc.name, body).0;
    assert t.nodes[st.tree.next] == Node(doc.name, Some(host), map[], body);
  }

  /**
   * The multi-level case in the source's `split('+')` order: a document
   * stored as `N1+…+Nk+X.json` is attached under the node reached by taking
   * the child `N1` of the current node, then its child `N2`, and so on to
   * `Nk`.
   */
  lemma NestedFilePlacement(st: BuildState, cur: NodeId, containers: seq<string>, last: string, doc: TypeDoc, host: NodeId)
    requires Valid(st.tree) && cur in st.tree.nodes
    requires ParseKind(doc.tag).Some?
    requires Separator !in last && forall i :: 0 <= i < |containers| ==> Separator !in containers[i]
    requires Reaches(st.tree, cur, containers, host)
    ensures ParseFile(st, cur, Join(containers + [last], Separator), doc).Ok?
    ensures
      var t, id := ParseFile(st, cur, Join(containers + [last], Separator), doc).value.tree, st.tree.next;
      && host in st.tree.nodes && id in t.nodes
      && t.nodes[id].name == doc.name && t.nodes[id].parent == Some(host)
      && t.nodes[host].children == st.tree.nodes[host].children[doc.name := id]
  {
    var parts := containers + [last];
    assert forall i :: 0 <= i < |parts| ==> Separator !in parts[i] by {
      forall i | 0 <= i < |parts|
        ensures Separator !in parts[i]
      {
        if i < |containers| {
          assert parts[i] == containers[i];
        }
      }
    }
    ContainingTypesInOrder(parts);
    assert parts[..|parts| - 1] == containers;
    ParseFilePlacement(st, cur, Join(parts, Separator), doc, host);
  }

  /** A document whose containing types lead to `host` is attached there. */
  lemma ParseFileAttaches(st: BuildState, cur: NodeId, fileName: string, doc: TypeDoc, host: NodeId)
    requires Valid(st.tree) && cur in st.tree.nodes && host in st.tree.nodes
    requires ParseKind(doc.tag).Some?
    requires Reaches(st.tree, cur, ContainingTypes(fileName), host)
    ensures
      var kind := ParseKind(doc.tag).value;
      var body := Type(kind, doc.access, WireMembers(kind, st.tree.next, doc.members));
      ParseFile(st, cur, fileName, doc) == Ok(st.(tree := Attach(st.tree, host, doc.name, body).0))
  {
    var kind := ParseKind(doc.tag).value;
    var body := Type(kind, doc.access, WireMembers(kind, st.tree.next, doc.members));
    SetupAttaches(st.tree, fileName, cur, doc.name, body, host);
  }

  /** The parent-child setup attaches under the one node the containing types lead to. */
  lemma SetupAttaches(t: Tree, fileName: string, parent: NodeId, name: string, body: NodeBody, host: NodeId)
    requires Valid(t) && parent in t.nodes && host in t.nodes
    requires Reaches(t, parent, ContainingTypes(fileName), host)
    ensures HandleParentChildSetup(t, fileName, parent, name, body) == Ok(Attach(t, host, name, body))
  {
    var placed := HandleParentChildSetup(t, fileName, parent, name, body);
    assert placed.Ok?;
    var h :| h in t.nodes && Reaches(t, parent, ContainingTypes(fileName), h) && placed.value == Attach(t, h, name, body);
    ReachesUnique(t, parent, ContainingTypes(fileName), h, host);
  }

  /** A file name without `+` attaches its type directly under the current node. */
  lemma PlainFileNamePlacement(st: BuildState, cur: NodeId, fileName: string, doc: TypeDoc)
    requires Valid(st.tree) && cur in st.tree.nodes
    requires ParseKind(doc.tag).Some? && Separator !in fileName
    ensures ParseFile(st, cur, fileName, doc).Ok?
    ensures
      var t, id := ParseFile(st, cur, fileName, doc).value.tree, st.tree.next;
      && t.nodes[id].parent == Some(cur) && t.nodes[id].name == doc.name && t.nodes[id].children == map[]
      && t.nodes[cur].children == st.tree.nodes[cur].children[doc.name := id]
      && t.next == id + 1
      && (forall n :: n in st.tree.nodes && n != cur ==> t.nodes[n] == st.tree.nodes[n])
  {
    assert IsChain(st.tree, [cur], cur, ContainingTypes(fileName), cur);
    ParseFilePlacement(st, cur, fileName, doc, cur);
  }

  /**
   * If a containing type named by the file name is missing, the document is
   * rejected with `DanglingContainingType`. In the program,
   * `handleNestedTypeParentChildSetup` reads `.children` of the undefined
   * result of the failed lookup there, which throws.
   */
  lemma ParseFileDangling(st: BuildState, cur: NodeId, fileName: string, doc: TypeDoc)
    requires Valid(st.tree) && cur in st.tree.nodes
    requires ParseKind(doc.tag).Some?
    requires forall host :: !Reaches(st.tree, cur, ContainingTypes(fileName), host)
    ensures ParseFile(st, cur, fileName, doc).Err?
    ensures ParseFile(st, cur, fileName, doc).error.DanglingContainingType?
    ensures ParseFile(st, cur, fileName, doc).error.missing in ContainingTypes(fileName)
  {
    var w := Walk(st.tree, cur, ContainingTypes(fileName));
    if w.Ok? {
      WalkReaches(st.tree, cur, ContainingTypes(fileName), w.value);
    }
  }

  /**
   * A sub-directory entry creates a namespace node whose parent is the
   * current node, stored under the directory name, and the sub-directory's
   * own listing is built inside it: every sub-directory and every plain
   * document of that listing leaves its key in the namespace node's
   * children, and the current node keeps the namespace entry.
   */
  lemma NamespacePlacement(st: BuildState, cur: NodeId, name: string, entries: seq<Entry>)
    requires Valid(st.tree) && cur in st.tree.nodes
    requires !EndsWith(name, DocumentSuffix)
    requires ParseEntry(st, cur, Folder(name, entries)).Ok?
    ensures
      var t, id := ParseEntry(st, cur, Folder(name, entries)).value.tree, st.tree.next;
      && id !in st.tree.nodes && id in t.nodes
      && t.nodes[id].name == name && t.nodes[id].parent == Some(cur) && t.nodes[id].body == Namespace
      && t.nodes[cur].children == st.tree.nodes[cur].children[name := id]
      && forall x :: x in entries && OwnKey(x).Some? ==> OwnKey(x).value in t.nodes[id].children
  {
    var e := Folder(name, entries);
    var (t1, child) := Attach(st.tree, cur, name, Namespace);
    var r := ParseChildren(st.(tree := t1), child, e);
    assert ParseEntry(st, cur, e) == r;
    assert cur < child;
  }

  // ---------------------------------------------------------------------
  // A container and its nested type in one directory

  lemma EndsWithAppended(s: string, suffix: string)
    ensures EndsWith(s + suffix, suffix)
  {
    assert (s + suffix)[|s|..] == suffix;
  }

  /** A permutation of two distinct values is one of their two orders. */
  lemma PermutationOfTwo<T>(s: seq<T>, a: T, b: T)
    requires a != b && multiset(s) == multiset([a, b])
    ensures s == [a, b] || s == [b, a]
  {
    assert |s| == |multiset(s)| == 2;
    assert s[0] in multiset(s) && s[1] in multiset(s);
    assert s == [s[0]] + [s[1]];
    assert multiset(s) == multiset([s[0]]) + multiset([s[1]]);
  }

  /** A file name `Outer+Rest` names exactly one containing type, `Outer`. */
  lemma ContainingTypesOfNested(outer: string, rest: string)
    requires Separator !in outer && Separator !in rest
    ensures ContainingTypes(outer + [Separator] + rest) == [outer]
  {
    SplitAround(outer, rest, Separator);
    SplitWithoutSeparator(outer, Separator);
    SplitWithoutSeparator(rest, Separator);
  }

  /** Whichever order the two files are listed in, the container's file is processed first. */
  lemma ContainerSortedFirst(container: Entry, nested: Entry, listing: seq<Entry>)
    requires NestingDepth(container.name) == 0 < NestingDepth(nested.name)
    requires listing == [container, nested] || listing == [nested, container]
    ensures SortByDepth(listing) == [container, nested]
  {
    assert container != nested;
    PermutationOfTwo(SortByDepth(listing), container, nested);
  }

  /** The container's document `Outer.json`: a node keyed `Outer` under the current node. */
  lemma ContainerStep(st: BuildState, cur: NodeId, container: Entry, outer: string)
    requires Valid(st.tree) && cur in st.tree.nodes
    requires container.File? && container.name == outer + DocumentSuffix && container.doc.name == outer
    requires Separator !in outer && ParseKind(container.doc.tag).Some?
    ensures ParseEntry(st, cur, container).Ok?
    ensures
      var t, o := ParseEntry(st, cur, container).value.tree, st.tree.next;
      && Valid(t) && o !in st.tree.nodes && o in t.nodes && t.next == o + 1
      && t.nodes[cur].children == st.tree.nodes[cur].children[outer := o]
      && t.nodes[o].name == outer && t.nodes[o].parent == Some(cur) && t.nodes[o].children == map[]
      && (forall n :: n in st.tree.nodes && n != cur ==> t.nodes[n] == st.tree.nodes[n])
      && ParseEntry(st, cur, container).value.namespaces == st.namespaces
  {
    EndsWithAppended(outer, DocumentSuffix);
    assert Separator !in outer + DocumentSuffix;
    PlainFileNamePlacement(st, cur, container.name, container.doc);
    DocumentEntry(st, cur, container);
  }

  /** The nested document `Outer+Inner.json`, once `Outer` is a child of the current node. */
  lemma NestedStep(st: BuildState, cur: NodeId, nested: Entry, outer: string, inner: string, o: NodeId)
    requires Valid(st.tree) && cur in st.tree.nodes
    requires nested.File? && nested.name == outer + [Separator] + inner + DocumentSuffix
    requires Separator !in outer && Separator !in inner && ParseKind(nested.doc.tag).Some?
    requires outer in st.tree.nodes[cur].children && st.tree.nodes[cur].children[outer] == o
    ensures ParseEntry(st, cur, nested).Ok?
    ensures
      var t, n := ParseEntry(st, cur, nested).value.tree, st.tree.next;
      && Valid(t) && o in st.tree.nodes && n in t.nodes
      && t.nodes[o].children == st.tree.nodes[o].children[nested.doc.name := n]
      && t.nodes[n].name == nested.doc.name && t.nodes[n].parent == Some(o)
      && (forall id :: id in st.tree.nodes && id != o ==> t.nodes[id] == st.tree.nodes[id])
      && ParseEntry(st, cur, nested).value.namespaces == st.namespaces
  {
    NestedReaches(st.tree, cur, nested.name, outer, inner, o);
    ParseFilePlacement(st, cur, nested.name, nested.doc, o);
    DocumentEntry(st, cur, nested);
  }

  /** The file name `Outer+Inner.json` leads from the current node to its child `Outer`. */
  lemma NestedReaches(t: Tree, cur: NodeId, name: string, outer: string, inner: string, o: NodeId)
    requires Valid(t) && cur in t.nodes
    requires name == outer + [Separator] + inner + DocumentSuffix
    requires Separator !in outer && Separator !in inner
    requires outer in t.nodes[cur].children && t.nodes[cur].children[outer] == o
    ensures EndsWith(name, DocumentSuffix)
    ensures Reaches(t, cur, ContainingTypes(name), o)
  {
    NestedFileName(name, outer, inner);
    assert IsChain(t, [cur, o], cur, [outer], o);
  }

  /** `Outer+Inner.json` is a document name whose one containing type is `Outer`. */
  lemma NestedFileName(name: string, outer: string, inner: string)
    requires name == outer + [Separator] + inner + DocumentSuffix
    requires Separator !in outer && Separator !in inner
    ensures EndsWith(name, DocumentSuffix)
    ensures ContainingTypes(name) == [outer]
  {
    assert name == outer + [Separator] + (inner + DocumentSuffix);
    EndsWithAppended(outer + [Separator] + inner, DocumentSuffix);
    assert Separator !in inner + DocumentSuffix;
    ContainingTypesOfNested(outer, inner + DocumentSuffix);
  }

  /** A file entry named `….json` is parsed as a document. */
  lemma DocumentEntry(st: BuildState, cur: NodeId, e: Entry)
    requires Valid(st.tree) && cur in st.tree.nodes
    requires e.File? && EndsWith(e.name, DocumentSuffix)
    ensures ParseEntry(st, cur, e) == ParseFile(st, cur, e.name, e.doc)
  {
  }

  /** The loop over a listing continues with the state its first entry leaves. */
  lemma ParseEntriesStep(st: BuildState, cur: NodeId, dir: Entry, listing: seq<Entry>)
    requires dir.Folder? && Valid(st.tree) && cur in st.tree.nodes
    requires forall e :: e in listing ==> e in dir.entries
    requires |listing| > 0 && ParseEntry(st, cur, listing[0]).Ok?
    ensures ParseEntries(st, cur, dir, listing) == ParseEntries(ParseEntry(st, cur, listing[0]).value, cur, dir, listing[1..])
  {
  }

  /** A directory's build ends with the tree its sorted listing leaves. */
  lemma ParseChildrenTree(st: BuildState, cur: NodeId, dir: Entry)
    requires dir.Folder? && Valid(st.tree) && cur in st.tree.nodes
    requires ParseEntries(st.(namespaces := st.namespaces + [st.tree.nodes[cur].name]), cur, dir, SortByDepth(dir.entries)).Ok?
    ensures ParseChildren(st, cur, dir).Ok?
    ensures ParseChildren(st, cur, dir).value.tree
            == ParseEntries(st.(namespaces := st.namespaces + [st.tree.nodes[cur].name]), cur, dir, SortByDepth(dir.entries)).value.tree
  {
  }

  /**
   * `after` is `before` with a container `outer` attached under `cur` as
   * node `before.next` and a type `inner` attached under that container as
   * the following node; nothing outside `cur`'s children map changes.
   */
  ghost predicate NestedPlaced(before: Tree, after: Tree, cur: NodeId, outer: string, inner: string)
  {
    var o, n := before.next, before.next + 1;
    && cur in before.nodes && cur in after.nodes && o in after.nodes && n in after.nodes
    && after.nodes[cur].children == before.nodes[cur].children[outer := o]
    && after.nodes[o].name == outer && after.nodes[o].parent == Some(cur) && after.nodes[o].children == map[inner := n]
    && after.nodes[n].name == inner && after.nodes[n].parent == Some(o)
    && (forall id :: id in before.nodes && id != cur ==> id in after.nodes && after.nodes[id] == before.nodes[id])
  }

  /** The two documents processed in order, container first. */
  lemma ContainerThenNested(st: BuildState, cur: NodeId, dir: Entry, outer: string, inner: string, container: Entry, nested: Entry)
    requires dir.Folder? && container in dir.entries && nested in dir.entries
    requires Valid(st.tree) && cur in st.tree.nodes
    requires Separator !in outer && Separator !in inner
    requires container.File? && container.name == outer + DocumentSuffix && container.doc.name == outer
    requires nested.File? && nested.name == outer + [Separator] + inner + DocumentSuffix
    requires ParseKind(container.doc.tag).Some? && ParseKind(nested.doc.tag).Some?
    ensures ParseEntries(st, cur, dir, [container, nested]).Ok?
    ensures NestedPlaced(st.tree, ParseEntries(st, cur, dir, [container, nested]).value.tree, cur, outer, nested.doc.name)
  {
    ContainerStep(st, cur, container, outer);
    var s1 := ParseEntry(st, cur, container).value;
    NestedStep(s1, cur, nested, outer, inner, st.tree.next);
    var s2 := ParseEntry(s1, cur, nested).value;
    ParseEntriesStep(st, cur, dir, [container, nested]);
    assert [container, nested][1..] == [nested];
    ParseEntriesStep(s1, cur, dir, [nested]);
    assert ParseEntries(s2, cur, dir, []) == Ok(s2);
  }

  lemma NestingDepths(outer: string, inner: string)
    requires Separator !in outer && Separator !in inner
    ensures NestingDepth(outer + DocumentSuffix) == 0
    ensures NestingDepth(outer + [Separator] + inner + DocumentSuffix) > 0
  {
    CountZeroIffAbsent(outer + DocumentSuffix, Separator);
    assert Separator !in outer + DocumentSuffix;
    var name := outer + [Separator] + inner + DocumentSuffix;
    assert name[|outer|] == Separator;
    CountZeroIffAbsent(name, Separator);
  }

  /**
   * A directory holding a type's document `Outer.json` and a nested type's
   * document `Outer+Inner.json`, listed in either order: the container
   * becomes a child of the directory's node under its name, and the nested
   * type a child of the container; no node outside the directory's changes.
   */
  lemma NestedTypeUnderContainer(st: BuildState, cur: NodeId, dirName: string, outer: string, inner: string,
                                 container: Entry, nested: Entry, listing: seq<Entry>)
    requires Valid(st.tree) && cur in st.tree.nodes
    requires Separator !in outer && Separator !in inner
    requires container.File? && container.name == outer + DocumentSuffix && container.doc.name == outer
    requires nested.File? && nested.name == outer + [Separator] + inner + DocumentSuffix
    requires ParseKind(container.doc.tag).Some? && ParseKind(nested.doc.tag).Some?
    requires listing == [container, nested] || listing == [nested, container]
    ensures ParseChildren(st, cur, Folder(dirName, listing)).Ok?
    ensures NestedPlaced(st.tree, ParseChildren(st, cur, Folder(dirName, listing)).value.tree, cur, outer, nested.doc.name)
  {
    var dir := Folder(dirName, listing);
    NestingDepths(outer, inner);
    ContainerSortedFirst(container, nested, listing);
    var pushed := st.(namespaces := st.namespaces + [st.tree.nodes[cur].name]);
    assert pushed.tree == st.tree;
    ContainerThenNested(pushed, cur, dir, outer, inner, container, nested);
    var r := ParseEntries(pushed, cur, dir, [container, nested]);
    assert r == ParseEntries(pushed, cur, dir, SortByDepth(dir.entries));
    ParseChildrenTree(st, cur, dir);
  }

  /**
   * Children are keyed by the declared type name, not by the file name: a
   * plain document `otherFile` that declares a type called `outer` takes
   * over the `outer` entry of the current node, so a nested
   * `outer+inner.json` processed after it goes under that document's node,
   * not under whichever node held the entry before.
   */
  lemma SameNameTakesOverNested(st: BuildState, cur: NodeId, otherFile: string, shadow: TypeDoc,
                                outer: string, inner: string, doc: TypeDoc)
    requires Valid(st.tree) && cur in st.tree.nodes
    requires ParseKind(shadow.tag).Some? && ParseKind(doc.tag).Some?
    requires Separator !in otherFile && Separator !in outer && Separator !in inner
    requires shadow.name == outer
    ensures ParseFile(st, cur, otherFile, shadow).Ok?
    ensures
      var s1 := ParseFile(st, cur, otherFile, shadow).value;
      var r := ParseFile(s1, cur, outer + [Separator] + inner + DocumentSuffix, doc);
      && r.Ok?
      && r.value.tree.nodes[s1.tree.next].parent == Some(st.tree.next)
      && (outer in st.tree.nodes[cur].children ==>
            r.value.tree.nodes[s1.tree.next].parent != Some(st.tree.nodes[cur].children[outer]))
  {
    ShadowReaches(st, cur, otherFile, shadow);
    var s1 := ParseFile(st, cur, otherFile, shadow).value;
    OneLevelPlacement(s1, cur, outer, inner, doc, st.tree.next);
    if outer in st.tree.nodes[cur].children {
      assert st.tree.nodes[cur].children[outer] in st.tree.nodes;
    }
  }

  /**
   * After a sub-directory `name` is built, each of its sub-directories and
   * plain documents is reached from the current node by the path
   * `[name, key]`, and its parent is the namespace node.
   */
  lemma NamespaceEntryReached(st: BuildState, cur: NodeId, name: string, entries: seq<Entry>, x: Entry)
    requires Valid(st.tree) && cur in st.tree.nodes
    requires !EndsWith(name, DocumentSuffix)
    requires ParseEntry(st, cur, Folder(name, entries)).Ok?
    requires x in entries && OwnKey(x).Some?
    ensures
      var t, ns, key := ParseEntry(st, cur, Folder(name, entries)).value.tree, st.tree.next, OwnKey(x).value;
      && ns in t.nodes && key in t.nodes[ns].children
      && Reaches(t, cur, [name, key], t.nodes[ns].children[key])
      && t.nodes[t.nodes[ns].children[key]].parent == Some(ns)
  {
    var t := ParseEntry(st, cur, Folder(name, entries)).value.tree;
    NamespacePlacement(st, cur, name, entries);
    assert t.nodes[cur].children[name] == st.tree.next;
    TwoStepReaches(t, cur, name, OwnKey(x).value);
  }

  /** A two-step path reaches the grandchild it names, whose parent is the child. */
  lemma TwoStepReaches(t: Tree, cur: NodeId, a: string, b: string)
    requires Valid(t) && cur in t.nodes && a in t.nodes[cur].children
    requires b in t.nodes[t.nodes[cur].children[a]].children
    ensures
      var mid := t.nodes[cur].children[a];
      var leaf := t.nodes[mid].children[b];
      Reaches(t, cur, [a, b], leaf) && leaf in t.nodes && t.nodes[leaf].parent == Some(mid)
  {
    var mid := t.nodes[cur].children[a];
    var leaf := t.nodes[mid].children[b];
    assert IsChain(t, [cur, mid, leaf], cur, [a, b], leaf);
  }

  /** A one-step path reaches the child entry it names. */
  lemma ChildReaches(t: Tree, cur: NodeId, name: string)
    requires cur in t.nodes && name in t.nodes[cur].children
    ensures Reaches(t, cur, [name], t.nodes[cur].children[name])
  {
    var c := t.nodes[cur].children[name];
    assert IsChain(t, [cur, c], cur, [name], c);
  }

  /** A document `outer+inner.json` goes under the node that `outer` leads to from the current node. */
  lemma OneLevelPlacement(st: BuildState, cur: NodeId, outer: string, inner: string, doc: TypeDoc, host: NodeId)
    requires Valid(st.tree) && cur in st.tree.nodes
    requires ParseKind(doc.tag).Some?
    requires Separator !in outer && Separator !in inner
    requires Reaches(st.tree, cur, [outer], host)
    ensures
      var r := ParseFile(st, cur, outer + [Separator] + inner + DocumentSuffix, doc);
      r.Ok? && st.tree.next in r.value.tree.nodes && r.value.tree.nodes[st.tree.next].parent == Some(host)
  {
    NestedNameOfTwo(outer, inner);
    assert [outer] + [inner + DocumentSuffix] == [outer, inner + DocumentSuffix];
    NestedFilePlacement(st, cur, [outer], inner + DocumentSuffix, doc, host);
  }

  /** After a plain document, its declared name leads from the current node to its node. */
  lemma ShadowReaches(st: BuildState, cur: NodeId, otherFile: string, shadow: TypeDoc)
    requires Valid(st.tree) && cur in st.tree.nodes
    requires ParseKind(shadow.tag).Some? && Separator !in otherFile
    ensures ParseFile(st, cur, otherFile, shadow).Ok?
    ensures
      var s1 := ParseFile(st, cur, otherFile, shadow).value;
      && cur in s1.tree.nodes && s1.tree.next == st.tree.next + 1
      && Reaches(s1.tree, cur, [shadow.name], st.tree.next)
  {
    PlainFileNamePlacement(st, cur, otherFile, shadow);
    ChildReaches(ParseFile(st, cur, otherFile, shadow).value.tree, cur, shadow.name);
  }

  /** The file name of a type nested one level deep, as the joined pieces. */
  lemma NestedNameOfTwo(outer: string, inner: string)
    requires Separator !in inner
    ensures Separator !in inner + DocumentSuffix
    ensures Join([outer, inner + DocumentSuffix], Separator) == outer + [Separator] + inner + DocumentSuffix
  {
    var last := inner + DocumentSuffix;
    assert [outer, last][1..] == [last];
    assert Join([outer, last], Separator) == outer + [Separator] + last;
  }
}
