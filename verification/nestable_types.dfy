/**
 * Building the model tree from the metadata directory: one document per
 * type, one sub-directory per namespace, and nested types encoded in file
 * names as `Outer+Inner`. The file system is an `Entry` tree value and a
 * document is reduced to its kind tag, type name, accessibility and member
 * collections; everything else about deserialization is outside the model.
 */
module NestableTypes {
  import opened Results
  import opened Strings
  import opened Sorting
  import opened Language
  import opened ModelTree

  /** The decoded metadata of one type. */
  datatype TypeDoc = TypeDoc(tag: string, name: string, access: Access, members: Members)

  /** One entry of a directory listing: a file with its document, or a sub-directory. */
  datatype Entry =
    | File(name: string, doc: TypeDoc)
    | Folder(name: string, entries: seq<Entry>)

  datatype BuildError =
    | UnknownTypeKind(tag: string)                            // the kind switch's default branch
    | DanglingContainingType(fileName: string, missing: string) // a containing type not (yet) in the tree
    | NotAFile(name: string)                                  // a directory named like a document
    | NotADirectory(name: string)                             // a file not named like a document

  /** The builder's state: the arena and the shared namespace stack. */
  datatype BuildState = BuildState(tree: Tree, namespaces: seq<string>)

  const Separator: char := '+'
  const DocumentSuffix: string := ".json"

  // ---------------------------------------------------------------------
  // Ordering the listing

  /** How deeply a file name nests its type: the number of separators. */
  function NestingDepth(name: string): nat
  {
    Count(name, Separator)
  }

  /** Sort key of an entry: nesting depth first, then the name as a tie-break. */
  function DepthKey(e: Entry): Key
  {
    Key(NestingDepth(e.name), e.name)
  }

  /**
   * The listing in processing order: a permutation of the input along which
   * the nesting depth never decreases.
   */
  function SortByDepth(listing: seq<Entry>): (sorted: seq<Entry>)
    ensures multiset(sorted) == multiset(listing)
    ensures forall e :: e in sorted <==> e in listing
    ensures SortedBy(sorted, DepthKey)
    ensures forall i, j :: 0 <= i < j < |sorted| ==>
              NestingDepth(sorted[i].name) <= NestingDepth(sorted[j].name)
  {
    SortByKeyPermutation(listing, DepthKey);
    SortByKeySorted(listing, DepthKey);
    SameElements(SortByKey(listing, DepthKey), listing);
    SortByKey(listing, DepthKey)
  }

  lemma SameElements<T>(a: seq<T>, b: seq<T>)
    requires multiset(a) == multiset(b)
    ensures forall e :: e in a <==> e in b
  {
    forall e
      ensures e in a <==> e in b
    {
      assert e in a <==> e in multiset(a);
      assert e in b <==> e in multiset(b);
    }
  }

  // ---------------------------------------------------------------------
  // Kind tags and member back-references

  function KindTag(k: TypeKind): string
  {
    match k
    case Class => "class"
    case Enum => "enum"
    case Interface => "interface"
    case Struct => "struct"
    case Delegate => "delegate"
  }

  /** Reads the kind discriminant; exactly the five known tags are accepted. */
  function ParseKind(tag: string): (k: Option<TypeKind>)
    ensures k.Some? <==> tag in {"class", "enum", "interface", "struct", "delegate"}
    ensures k.Some? ==> KindTag(k.value) == tag
    ensures forall kind :: tag == KindTag(kind) ==> k == Some(kind)
  {
    if tag == "class" then Some(Class)
    else if tag == "enum" then Some(Enum)
    else if tag == "interface" then Some(Interface)
    else if tag == "struct" then Some(Struct)
    else if tag == "delegate" then Some(Delegate)
    else None
  }

  /** `after` is `before` with every member's owner set to `id`. */
  ghost predicate OwnedBy(before: seq<Member>, after: seq<Member>, id: NodeId)
  {
    && |after| == |before|
    && forall i :: 0 <= i < |before| ==>
         after[i].name == before[i].name && after[i].access == before[i].access && after[i].owner == Some(id)
  }

  function SetOwner(ms: seq<Member>, id: NodeId): (r: seq<Member>)
    ensures OwnedBy(ms, r, id)
  {
    if |ms| == 0 then [] else [ms[0].(owner := Some(id))] + SetOwner(ms[1..], id)
  }

  /**
   * The per-kind `setParentFor…` calls: classes, interfaces and structs wire
   * all four collections, enums only their fields, delegates none.
   */
  function WireMembers(kind: TypeKind, id: NodeId, m: Members): (r: Members)
    ensures kind in {Class, Interface, Struct} ==>
              && OwnedBy(m.properties, r.properties, id) && OwnedBy(m.fields, r.fields, id)
              && OwnedBy(m.events, r.events, id) && OwnedBy(m.methods, r.methods, id)
    ensures kind == Enum ==>
              && OwnedBy(m.fields, r.fields, id)
              && r.properties == m.properties && r.events == m.events && r.methods == m.methods
    ensures kind == Delegate ==> r == m
  {
    match kind
    case Class | Interface | Struct =>
      Members(SetOwner(m.properties, id), SetOwner(m.fields, id), SetOwner(m.events, id), SetOwner(m.methods, id))
    case Enum => m.(fields := SetOwner(m.fields, id))
    case Delegate => m
  }

  // ---------------------------------------------------------------------
  // Placing a type node

  /**
   * The containing-type names a file name encodes: every `+`-separated
   * piece but the last (which is the type's own name plus the suffix).
   */
  function ContainingTypes(fileName: string): (path: seq<string>)
    ensures |path| == NestingDepth(fileName)
    ensures forall i :: 0 <= i < |path| ==> Separator !in path[i]
    ensures |path| == 0 <==> Separator !in fileName
  {
    CountZeroIffAbsent(fileName, Separator);
    var parts := Split(fileName, Separator);
    parts[..|parts| - 1]
  }

  /** The containing types of `N1+…+Nk+X` are `N1`, …, `Nk`, outermost first. */
  lemma ContainingTypesInOrder(parts: seq<string>)
    requires |parts| >= 1
    requires forall i :: 0 <= i < |parts| ==> Separator !in parts[i]
    ensures ContainingTypes(Join(parts, Separator)) == parts[..|parts| - 1]
  {
    SplitJoin(parts, Separator);
  }

  /**
   * The split loses nothing: the containing types followed by the last
   * piece are the split pieces, and joining them with `+` gives the file
   * name back.
   */
  lemma ContainingTypesRejoin(fileName: string)
    ensures var parts := Split(fileName, Separator);
      && ContainingTypes(fileName) + [parts[|parts| - 1]] == parts
      && Join(ContainingTypes(fileName) + [parts[|parts| - 1]], Separator) == fileName
  {
    var parts := Split(fileName, Separator);
    assert parts[..|parts| - 1] + [parts[|parts| - 1]] == parts;
    JoinSplit(fileName, Separator);
  }

  /**
   * `handleNestedTypeParentChildSetup`: walk from `parent` through the
   * containing types and attach the new node under the type reached; a
   * containing type missing on the way rejects the document.
   */
  function HandleNestedTypeParentChildSetup(t: Tree, fileName: string, parent: NodeId, name: string, body: NodeBody)
    : (r: Result<(Tree, NodeId), BuildError>)
    requires Valid(t) && parent in t.nodes
    ensures r.Ok? ==> exists host :: host in t.nodes && Reaches(t, parent, ContainingTypes(fileName), host) && r.value == Attach(t, host, name, body)
    ensures r.Err? <==> forall host :: !Reaches(t, parent, ContainingTypes(fileName), host)
    ensures r.Err? ==> r.error.DanglingContainingType? && r.error.missing in ContainingTypes(fileName)
  {
    var path := ContainingTypes(fileName);
    match Walk(t, parent, path)
    case Err(missing) =>
      WalkMissesEverything(t, parent, path);
      Err(DanglingContainingType(fileName, missing))
    case Ok(host) =>
      WalkReaches(t, parent, path, host);
      Ok(Attach(t, host, name, body))
  }

  /**
   * Attaches a new type node either under `parent` (a plain file name) or
   * under the containing type its file name designates.
   */
  function HandleParentChildSetup(t: Tree, fileName: string, parent: NodeId, name: string, body: NodeBody)
    : (r: Result<(Tree, NodeId), BuildError>)
    requires Valid(t) && parent in t.nodes
    ensures r.Ok? ==> Valid(r.value.0) && r.value.1 == t.next
    ensures r.Ok? ==> exists host :: host in t.nodes && Reaches(t, parent, ContainingTypes(fileName), host) && r.value == Attach(t, host, name, body)
    ensures r.Err? <==> forall host :: !Reaches(t, parent, ContainingTypes(fileName), host)
    ensures r.Err? ==> r.error.DanglingContainingType?
  {
    var path := ContainingTypes(fileName);
    if Separator in fileName then
      HandleNestedTypeParentChildSetup(t, fileName, parent, name, body)
    else
      WalkReaches(t, parent, path, parent);
      Ok(Attach(t, parent, name, body))
  }

  lemma WalkMissesEverything(t: Tree, from: NodeId, path: seq<string>)
    requires Valid(t) && from in t.nodes
    requires Walk(t, from, path).Err?
    ensures forall host :: !Reaches(t, from, path, host)
  {
    forall host
      ensures !Reaches(t, from, path, host)
    {
      WalkReaches(t, from, path, host);
    }
  }

  // ---------------------------------------------------------------------
  // The recursive build

  /** `t2` holds every node of `t` with the same name, parent and payload. */
  ghost predicate Extends(t: Tree, t2: Tree)
  {
    && t.nodes.Keys <= t2.nodes.Keys
    && t.next <= t2.next
    && forall id :: id in t.nodes ==>
         && t2.nodes[id].name == t.nodes[id].name
         && t2.nodes[id].parent == t.nodes[id].parent
         && t2.nodes[id].body == t.nodes[id].body
  }

  /** Nodes allocated before `bound` are untouched, children included. */
  ghost predicate UnchangedBelow(t: Tree, t2: Tree, bound: NodeId)
  {
    forall id :: id in t.nodes && id < bound ==> id in t2.nodes && t2.nodes[id] == t.nodes[id]
  }

  /**
   * The key an entry leaves in the current node's `children`: a
   * sub-directory's name, or the declared type name of a document whose file
   * name has no `+`. A nested type's document leaves its key under its
   * containing type instead.
   */
  function OwnKey(e: Entry): Option<string>
  {
    match e
    case Folder(name, _) => Some(name)
    case File(name, doc) => if Separator in name then None else Some(doc.name)
  }

  /** `cur`'s children in `t2` keep every key they had in `t`; entries are only ever set, never removed. */
  ghost predicate KeepsKeys(t: Tree, t2: Tree, cur: NodeId)
  {
    cur in t.nodes && cur in t2.nodes && t.nodes[cur].children.Keys <= t2.nodes[cur].children.Keys
  }

  /** Every entry of `listing` that leaves a key at `cur` has left it. */
  ghost predicate HoldsKeys(t: Tree, cur: NodeId, listing: seq<Entry>)
  {
    cur in t.nodes && forall e :: e in listing && OwnKey(e).Some? ==> OwnKey(e).value in t.nodes[cur].children
  }

  /** Placing a node keeps the keys of `parent`, and adds `name` to them when the file name has no `+`. */
  lemma SetupKeepsKeys(t: Tree, fileName: string, parent: NodeId, name: string, body: NodeBody, placed: (Tree, NodeId))
    requires Valid(t) && parent in t.nodes
    requires exists host :: host in t.nodes && Reaches(t, parent, ContainingTypes(fileName), host) && placed == Attach(t, host, name, body)
    ensures KeepsKeys(t, placed.0, parent)
    ensures Separator !in fileName ==> name in placed.0.nodes[parent].children
  {
    var host :| host in t.nodes && Reaches(t, parent, ContainingTypes(fileName), host) && placed == Attach(t, host, name, body);
    if Separator !in fileName {
      WalkReaches(t, parent, ContainingTypes(fileName), host);
    }
  }

  lemma ExtendsTransitive(t1: Tree, t2: Tree, t3: Tree)
    requires Extends(t1, t2) && Extends(t2, t3)
    ensures Extends(t1, t3)
  {
  }

  lemma UnchangedBelowTransitive(t1: Tree, t2: Tree, t3: Tree, b1: NodeId, b2: NodeId)
    requires UnchangedBelow(t1, t2, b1) && UnchangedBelow(t2, t3, b2) && b1 <= b2
    ensures UnchangedBelow(t1, t3, b1)
  {
  }

  /** `Array.prototype.pop`: drops the last element, leaves an empty stack alone. */
  function Pop(stack: seq<string>): seq<string>
  {
    if |stack| == 0 then stack else stack[..|stack| - 1]
  }

  /** Attaching under a node reached from `from` leaves every node before `from` alone. */
  lemma AttachedAtOrBelow(t: Tree, from: NodeId, path: seq<string>, name: string, body: NodeBody, placed: (Tree, NodeId))
    requires Valid(t) && from in t.nodes
    requires exists host :: host in t.nodes && Reaches(t, from, path, host) && placed == Attach(t, host, name, body)
    ensures Extends(t, placed.0) && UnchangedBelow(t, placed.0, from)
  {
    var host :| host in t.nodes && Reaches(t, from, path, host) && placed == Attach(t, host, name, body);
    WalkReaches(t, from, path, host);
    AttachFrame(t, host, name, body);
  }

  /** Attaching changes only the host's children map and adds one node. */
  lemma AttachFrame(t: Tree, at: NodeId, name: string, body: NodeBody)
    requires Valid(t) && at in t.nodes
    ensures Extends(t, Attach(t, at, name, body).0)
    ensures UnchangedBelow(t, Attach(t, at, name, body).0, at)
  {
    var t2 := Attach(t, at, name, body).0;
    forall id | id in t.nodes
      ensures t2.nodes[id].name == t.nodes[id].name
      ensures t2.nodes[id].parent == t.nodes[id].parent
      ensures t2.nodes[id].body == t.nodes[id].body
    {
      if id == at {
        assert t2.nodes[at].(children := t.nodes[at].children) == t.nodes[at];
      }
    }
  }

  /** One type-metadata file: kind dispatch, node creation, placement, member wiring. */
  function ParseFile(st: BuildState, cur: NodeId, fileName: string, doc: TypeDoc): (r: Result<BuildState, BuildError>)
    requires Valid(st.tree) && cur in st.tree.nodes
    ensures r.Ok? ==> r.value.namespaces == st.namespaces
    ensures r.Ok? ==> Valid(r.value.tree) && Extends(st.tree, r.value.tree)
    ensures r.Ok? ==> UnchangedBelow(st.tree, r.value.tree, cur)
    ensures r.Ok? ==> KeepsKeys(st.tree, r.value.tree, cur)
    ensures r.Ok? && Separator !in fileName ==> doc.name in r.value.tree.nodes[cur].children
  {
    match ParseKind(doc.tag)
    case None => Err(UnknownTypeKind(doc.tag))
    case Some(kind) =>
      var body := Type(kind, doc.access, WireMembers(kind, st.tree.next, doc.members));
      var placed :- HandleParentChildSetup(st.tree, fileName, cur, doc.name, body);
      AttachedAtOrBelow(st.tree, cur, ContainingTypes(fileName), doc.name, body, placed);
      SetupKeepsKeys(st.tree, fileName, cur, doc.name, body, placed);
      Ok(st.(tree := placed.0))
  }

  /**
   * `parseChildrenImplementation`: push the node's name, sort the listing,
   * process every entry in order, pop.
   */
  function ParseChildren(st: BuildState, cur: NodeId, dir: Entry): (r: Result<BuildState, BuildError>)
    requires dir.Folder? && Valid(st.tree) && cur in st.tree.nodes
    ensures r.Ok? ==> r.value.namespaces == st.namespaces
    ensures r.Ok? ==> Valid(r.value.tree) && Extends(st.tree, r.value.tree)
    ensures r.Ok? ==> UnchangedBelow(st.tree, r.value.tree, cur)
    ensures r.Ok? ==> KeepsKeys(st.tree, r.value.tree, cur) && HoldsKeys(r.value.tree, cur, dir.entries)
    decreases dir, 2, 0
  {
    var pushed := st.(namespaces := st.namespaces + [st.tree.nodes[cur].name]);
    var done :- ParseEntries(pushed, cur, dir, SortByDepth(dir.entries));
    Ok(done.(namespaces := Pop(done.namespaces)))
  }

  /** The loop over the sorted listing; the first failure aborts it. */
  function ParseEntries(st: BuildState, cur: NodeId, ghost dir: Entry, listing: seq<Entry>): (r: Result<BuildState, BuildError>)
    requires dir.Folder? && Valid(st.tree) && cur in st.tree.nodes
    requires forall e :: e in listing ==> e in dir.entries
    ensures r.Ok? ==> r.value.namespaces == st.namespaces
    ensures r.Ok? ==> Valid(r.value.tree) && Extends(st.tree, r.value.tree)
    ensures r.Ok? ==> UnchangedBelow(st.tree, r.value.tree, cur)
    ensures r.Ok? ==> KeepsKeys(st.tree, r.value.tree, cur) && HoldsKeys(r.value.tree, cur, listing)
    decreases dir, 1, |listing|
  {
    if |listing| == 0 then Ok(st)
    else
      var e := listing[0];
      assert e in dir.entries;
      assert exists i :: 0 <= i < |dir.entries| && dir.entries[i] == e;
      var st1 :- ParseEntry(st, cur, e);
      var r :- ParseEntries(st1, cur, dir, listing[1..]);
      ExtendsTransitive(st.tree, st1.tree, r.tree);
      UnchangedBelowTransitive(st.tree, st1.tree, r.tree, cur, cur);
      assert forall x :: x in listing ==> x == e || x in listing[1..];
      Ok(r)
  }

  /**
   * One listing entry: a name ending in `.json` is read as a document, any
   * other name becomes a namespace.
   */
  function ParseEntry(st: BuildState, cur: NodeId, e: Entry): (r: Result<BuildState, BuildError>)
    requires Valid(st.tree) && cur in st.tree.nodes
    ensures EndsWith(e.name, DocumentSuffix) && e.Folder? ==> r == Err(NotAFile(e.name))
    ensures !EndsWith(e.name, DocumentSuffix) && e.File? ==> r == Err(NotADirectory(e.name))
    ensures r.Ok? ==> r.value.namespaces == st.namespaces
    ensures r.Ok? ==> Valid(r.value.tree) && Extends(st.tree, r.value.tree)
    ensures r.Ok? ==> UnchangedBelow(st.tree, r.value.tree, cur)
    ensures r.Ok? ==> KeepsKeys(st.tree, r.value.tree, cur)
    ensures r.Ok? && OwnKey(e).Some? ==> OwnKey(e).value in r.value.tree.nodes[cur].children
    decreases e, 4, 0
  {
    if EndsWith(e.name, DocumentSuffix) then
      match e
      case File(name, doc) => ParseFile(st, cur, name, doc)
      case Folder(name, _) => Err(NotAFile(name))
    else
      ParseNamespace(st, cur, e)
  }

  /**
   * A sub-directory: a namespace node whose parent is the current node is
   * attached under the directory name, then its own listing is parsed.
   */
  function ParseNamespace(st: BuildState, cur: NodeId, e: Entry): (r: Result<BuildState, BuildError>)
    requires Valid(st.tree) && cur in st.tree.nodes
    ensures r.Ok? ==> r.value.namespaces == st.namespaces
    ensures r.Ok? ==> Valid(r.value.tree) && Extends(st.tree, r.value.tree)
    ensures r.Ok? ==> UnchangedBelow(st.tree, r.value.tree, cur)
    ensures r.Ok? ==> KeepsKeys(st.tree, r.value.tree, cur)
    ensures r.Ok? ==> e.Folder? && e.name in r.value.tree.nodes[cur].children
    ensures r.Ok? ==> var ns := r.value.tree.nodes[cur].children[e.name];
              ns == st.tree.next && HoldsKeys(r.value.tree, ns, e.entries)
    decreases e, 3, 0
  {
    var (t, child) := Attach(st.tree, cur, e.name, Namespace);
    AttachFrame(st.tree, cur, e.name, Namespace);
    match e
    case Folder(_, _) =>
      var r :- ParseChildren(st.(tree := t), child, e);
      ExtendsTransitive(st.tree, t, r.tree);
      UnchangedBelowTransitive(st.tree, t, r.tree, cur, child);
      Ok(r)
    case File(name, _) => Err(NotADirectory(name))
  }

  /**
   * The whole build: a project node named after the project, whose directory
   * listing is parsed with an initially empty namespace stack.
   */
  function Build(projectName: string, listing: seq<Entry>): (r: Result<Tree, BuildError>)
    ensures r.Ok? ==> Valid(r.value) && r.value.nodes[Root].name == projectName && r.value.nodes[Root].body == Project
  {
    var done :- ParseChildren(BuildState(NewTree(projectName), []), Root, Folder(projectName, listing));
    Ok(done.tree)
  }
}
