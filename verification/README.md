# Docshark model tree and render dispatcher in Dafny

Docshark turns a C# project into Markdown documentation. A companion tool
writes one JSON metadata document per type into a directory tree: one
directory per namespace, nested types flattened into file names such as
`Outer+Inner.json`. Docshark then builds an in-memory model tree from that
directory and hands every type to a renderer. The render manager decides,
from the configuration's "show if public / protected / internal / internal
protected / private" flags, which renderer callbacks happen.

This project models the two pieces that make those decisions:

- **The tree builder** (`parseChildrenImplementation`,
  `handleParentChildSetup`, `handleNestedTypeParentChildSetup`).
  - The directory tree is an `Entry` value (a file with its decoded
    document, or a folder with its listing). The model tree is an arena
    `map<NodeId, Node>`, and each node keeps a non-owning parent id and a
    `children` map from name to id.
  - A build either returns the tree or the first error: an unknown kind
    tag, a containing type that is not in the tree yet, or a file/folder
    mismatch.
  - Modules: `ModelTree`, `NestableTypes`, `BuildProperties`, with
    `Strings`, `Sorting` and `Language` underneath.
- **The render dispatcher** (`RenderManager`).
  - A run is the sequence of renderer callbacks it makes (`Call` values).
    The model is therefore pure functions from the types and the
    configuration to that sequence.
  - Modules: `RenderManager` and `RenderProperties`.

The main results:

- The builder:
  - sorts a listing into a permutation in which the number of `+` never
    decreases;
  - attaches every type under the node its file name designates;
  - builds each sub-directory inside its own namespace node: every
    sub-directory and every document without `+` in it leaves its key in
    that node's children, and keys are only ever added;
  - aborts on any unknown kind tag anywhere in the tree;
  - builds the same tree (or fails with the same error) whatever order
    the file system lists a directory in, when the names in it are
    distinct. This rests on the model taking entries with the same number
    of `+` in name order. The source's comparator never returns 0, so
    there the order among such entries depends on the listing and on the
    engine's sort.
  - in a directory holding just `Outer.json`, which declares the type
    `Outer`, and `Outer+Inner.json`, makes them parent and child in
    either listing order. In general a nested type goes under whatever
    node the current node's `Outer` entry names when its document is
    processed; that entry is keyed by declared type name, so another
    document declaring `Outer` can take it over (see below).
- The dispatcher:
  - makes a begin/end pair exactly for the types whose kind flags show
    them;
  - visits the member categories in the order properties, methods,
    events, fields;
  - within a category, makes one call per enabled, non-empty
    accessibility group, in the order public, protected, internal,
    internal protected, private;
  - passes each call exactly that group's members, sorted by name. The
    groups partition the members.

## Model

| member | source | states |
|---|---|---|
| `NestableTypes.SortByDepth` | src/models/interfaces/IHaveNestableTypes.ts:62-67 | the processing order is a permutation of the listing holding the same entries, and along it the number of `+` in a name never decreases |
| `Sorting.SortByKeySorted` | src/models/interfaces/IHaveNestableTypes.ts:62-67 | the sort leaves every pair of elements ordered by (nesting depth, name) |
| `Sorting.SortByKeyPermutation` | src/models/interfaces/IHaveNestableTypes.ts:62-67 | the sort keeps every element exactly as often as it occurs in the input |
| `Sorting.SortByKeyIgnoresInputOrder` | src/models/interfaces/IHaveNestableTypes.ts:62-67 | two inputs holding the same elements with distinct keys sort to the same sequence |
| `BuildProperties.ContainerProcessedFirst` | src/models/interfaces/IHaveNestableTypes.ts:49-67 | an entry with fewer `+` in its name is processed before any entry with more, so `A.json` comes before `A+B.json` |
| `BuildProperties.ListingOrderIrrelevant` | src/models/interfaces/IHaveNestableTypes.ts:43-76 | any permutation of a directory listing with distinct names gives the same build result, tree or error |
| `BuildProperties.NestedTypeUnderContainer` | src/models/interfaces/IHaveNestableTypes.ts:49-67 | for a directory holding exactly `Outer.json`, declaring `Outer`, and `Outer+Inner.json`, both of known kinds: whichever of the two orders it lists them in, the build succeeds; `Outer` becomes a child of the directory's node and `Inner` a child of `Outer`, and no other node changes |
| `NestableTypes.ParseKind` | src/models/interfaces/IHaveNestableTypes.ts:88-153 | exactly the five tags `class`, `enum`, `interface`, `struct`, `delegate` are accepted, each mapped to the kind whose tag it is |
| `BuildProperties.ParseFileRejectsUnknownKind` | src/models/interfaces/IHaveNestableTypes.ts:149-152 | a document fails with the unknown-kind error exactly when its tag is not one of the five; with a known tag the only possible failure is a missing containing type |
| `BuildProperties.BuildFailsOnUnknownKind` | src/models/interfaces/IHaveNestableTypes.ts:149-152 | one document with an unknown tag anywhere below the project directory makes the whole build fail |
| `NestableTypes.WireMembers` | src/models/interfaces/IHaveNestableTypes.ts:89-148 | classes, interfaces and structs get all four member collections pointed at the new node, enums only their fields, delegates nothing; names and accessibilities are kept |
| `NestableTypes.ContainingTypes` | src/models/interfaces/IHaveNestableTypes.ts:188-190 | a file name yields one containing-type name per `+`, none of them holding a `+`, and none at all exactly when the name has no `+` |
| `NestableTypes.ContainingTypesInOrder` | src/models/interfaces/IHaveNestableTypes.ts:188-190 | the containing types of `N1+…+Nk+X` are exactly `N1`, …, `Nk`, outermost first |
| `NestableTypes.HandleNestedTypeParentChildSetup` | src/models/interfaces/IHaveNestableTypes.ts:187-204 | on success the new node hangs under a node the containing types lead to from the starting node; it fails exactly when they lead nowhere, with a missing-containing-type error naming one of them |
| `BuildProperties.SameNameTakesOverNested` | src/models/interfaces/IHaveNestableTypes.ts:172-203 | a plain document declaring a type called `Outer` becomes the current node's `Outer` entry, and a later `Outer+Inner.json` goes under that document's node, not under the node the entry named before |
| `BuildProperties.NestedFilePlacement` | src/models/interfaces/IHaveNestableTypes.ts:187-203 | a document stored as `N1+…+Nk+X.json` becomes a child of the node reached by taking child `N1` of the current node, then its child `N2`, and so on to `Nk` |
| `Strings.CountZeroIffAbsent` | src/models/interfaces/IHaveNestableTypes.ts:173 | a name has no `+` to count exactly when it does not include `+`, so the plain and the nested branch agree with the depth sort |
| `NestableTypes.HandleParentChildSetup` | src/models/interfaces/IHaveNestableTypes.ts:172-204 | on success the new node hangs under a node the containing types lead to from the current node; it fails, always as a missing containing type, exactly when no node is reached that way |
| `ModelTree.Attach` | src/models/interfaces/IHaveNestableTypes.ts:201-203 | the new node is fresh, has the host as parent and no children; the host's children gain exactly the one entry for it; every other node is unchanged; the tree invariant is kept |
| `ModelTree.Walk` | src/models/interfaces/IHaveNestableTypes.ts:197-199 | following the containing types ends at an allocated node, or fails naming one of the containing types |
| `ModelTree.WalkReaches` | src/models/interfaces/IHaveNestableTypes.ts:197-199 | the walk ends at a node exactly when a chain of child entries named by the path leads there |
| `ModelTree.ReachesUnique` | src/models/interfaces/IHaveNestableTypes.ts:197-199 | a path of names leads to at most one node |
| `BuildProperties.ParseFilePlacement` | src/models/interfaces/IHaveNestableTypes.ts:187-203 | when the file name's containing types lead to a host, the document becomes a fresh node under that host, keyed by its type name and holding its kind, accessibility and wired members; nothing else in the tree changes |
| `BuildProperties.PlainFileNamePlacement` | src/models/interfaces/IHaveNestableTypes.ts:172-178 | a file name without `+` attaches its type directly under the current node |
| `BuildProperties.ParseFileDangling` | src/models/interfaces/IHaveNestableTypes.ts:197-199 | when a containing type is missing, the document is rejected with the dangling-containing-type error naming one of the containing types |
| `BuildProperties.NamespacePlacement` | src/models/interfaces/IHaveNestableTypes.ts:155-161 | a sub-directory becomes a fresh namespace node with the current node as parent, stored under the directory's name, and its own listing is built inside that node: each of its sub-directories and `+`-free documents is a key of the node's children |
| `BuildProperties.NamespaceEntryReached` | src/models/interfaces/IHaveNestableTypes.ts:155-161 | after a sub-directory `N` is built, each of its sub-directories and `+`-free documents with key `K` is reached from the current node along `[N, K]`, and its parent is the namespace node |
| `NestableTypes.ParseFile` | src/models/interfaces/IHaveNestableTypes.ts:78-153 | a successful document step keeps the namespace stack and the tree invariant, keeps every existing node's name, parent and payload, and leaves nodes created before the current one untouched |
| `NestableTypes.ParseEntries` | src/models/interfaces/IHaveNestableTypes.ts:76-162 | the loop over the listing keeps the same invariants as a single step, removes no key of the current node's children and leaves the key of every listed sub-directory and `+`-free document there |
| `NestableTypes.ParseEntry` | src/models/interfaces/IHaveNestableTypes.ts:76-161 | a `.json` name that is a folder fails as not-a-file, any other name that is a file fails as not-a-directory; a successful step keeps the namespace stack, the tree invariant, every existing node and every key of the current node's children, and adds the entry's own key (a folder's name, a `+`-free document's type name) |
| `NestableTypes.ParseNamespace` | src/models/interfaces/IHaveNestableTypes.ts:155-161 | a successful sub-directory step keeps the current node's keys and adds the directory's name, naming the new node; the sub-directory's own entries have their keys in that node's children; the invariants are kept |
| `NestableTypes.ParseChildren` | src/models/interfaces/IHaveNestableTypes.ts:43-164 | a successful directory build returns the namespace stack as it found it (push, then pop) and keeps the tree invariant and every existing node; afterwards every sub-directory name and the declared name of every `+`-free document of the listing is a key of the current node's children, and no key was removed |
| `ModelTree.NewTree` | src/app.ts:37 | the fresh tree is valid and holds only the project node, named after the project and without children |
| `NestableTypes.Build` | src/app.ts:37-38 | a successful build yields a valid tree whose root is the project node named after the project |
| `RenderManager.DispatchKind` | src/renderer/RenderManager.ts:75-86 | every type goes to exactly one handler: the first of class, value type, enum, interface whose flag is set, delegate otherwise |
| `RenderManager.Render` | src/renderer/RenderManager.ts:72-87 | a run makes no call at all exactly when every type's kind flags hide it |
| `RenderManager.RenderType` | src/renderer/RenderManager.ts:75-86 | a type makes no call exactly when the flags of the kind it is dispatched to hide it; otherwise its first call begins and its last call ends that kind's rendering on its page |
| `RenderManager.RenderWithMembers` | src/renderer/RenderManager.ts:89-96 | a class, struct or interface is skipped exactly when its kind's flags hide it; otherwise begin and end frame calls that are all enabled, non-empty member group calls on its page |
| `RenderManager.RenderEnum` | src/renderer/RenderManager.ts:105-111 | an enum is skipped exactly when the enum flags hide it; otherwise begin and end frame one values call with all its fields, and no call is an accessibility group call |
| `RenderManager.RenderDelegate` | src/renderer/RenderManager.ts:98-103 | a delegate is skipped exactly when the delegate flags hide it; otherwise it gets only begin and end calls for a delegate |
| `RenderProperties.RenderTypeShape` | src/renderer/RenderManager.ts:89-127 | between a shown type's begin and end calls come its members' calls for classes, structs and interfaces, one values call with the unfiltered fields for enums, and nothing for delegates |
| `RenderProperties.RenderTypeRespectsKindConfig` | src/renderer/RenderManager.ts:89-127 | every call a type makes is for its page, its begin and end calls name its kind and name, and its member calls are well-formed group calls |
| `RenderProperties.RenderAppend` | src/renderer/RenderManager.ts:75 | rendering a list of types is rendering each type in turn |
| `RenderProperties.RenderCallsFromTypes` | src/renderer/RenderManager.ts:72-87 | a call is made in a run exactly when it is one of the calls of some type of the run |
| `RenderProperties.RenderRespectsConfig` | src/renderer/RenderManager.ts:72-127 | over a run, every type its kind's flags show gets its begin call, every begin call comes from a type its flags show, and no group call is empty or for a disabled group |
| `RenderManager.RenderMembers` | src/renderer/RenderManager.ts:129-154 | every member call is a non-empty group call on the type's page for a group its category's flags enable |
| `RenderManager.CategoryCalls` | src/renderer/RenderManager.ts:129-186 | a category makes calls only when it is present, non-empty and holds a member that passes `shouldRender`; each is an enabled, non-empty group call of that category carrying that group of its sorted members |
| `RenderProperties.RenderMembersCalls` | src/renderer/RenderManager.ts:129-154 | member rendering makes only group calls, ordered by category (properties, methods, events, fields) and then by group, each for a visited category and carrying that group of the category's sorted members |
| `RenderProperties.RenderMembersSkips` | src/renderer/RenderManager.ts:129-154 | an absent or empty category, or one with nothing renderable, gets no call |
| `RenderProperties.RenderMembersCover` | src/renderer/RenderManager.ts:129-154 | in a visited category a group gets a call exactly when the category's flags enable it and some member belongs to it |
| `RenderManager.ShouldRender` | src/renderer/RenderManager.ts:233-251 | an internal protected model is shown exactly when that flag is enabled; any other model is shown exactly when one of the flags it carries is enabled |
| `RenderManager.HasRenderableModels` | src/renderer/RenderManager.ts:253-272 | the loop answers true exactly when some member passes `shouldRender` |
| `RenderProperties.InternalProtectedClassifiedOnce` | src/renderer/RenderManager.ts:233-241 | an internal and protected member is decided by the internal-protected flag alone, in `shouldRender`, in `hasRenderableModels` and in the grouping, and never lands in the internal or protected group |
| `RenderManager.Classify` | src/renderer/RenderManager.ts:196-208 | each group is characterised by the flags that lead to it, so every member is in exactly one group |
| `RenderManager.InGroup` | src/renderer/RenderManager.ts:196-208 | a group holds exactly the members whose accessibility is classified into it |
| `RenderProperties.GroupsPartition` | src/renderer/RenderManager.ts:196-208 | the five groups together hold every member exactly as often as the input does |
| `RenderManager.Organize` | src/renderer/RenderManager.ts:190-208 | after the loop, every array holds exactly its group's members, in input order |
| `RenderManager.SortMembers` | src/renderer/RenderManager.ts:189 | the sorted members are a permutation of the input, ordered by name |
| `RenderProperties.SortTwo` | src/renderer/RenderManager.ts:189 | two members with different names come out smaller name first |
| `RenderProperties.SortedGroups` | src/renderer/RenderManager.ts:189-208 | each group of the sorted members is sorted by name, is a permutation of that group of the input, and is non-empty exactly when some member belongs to the group |
| `RenderManager.RenderOrganizedMembers` | src/renderer/RenderManager.ts:188-225 | every call is a non-empty group call of the category on the page, for an enabled group, carrying exactly that group of the members sorted by name |
| `RenderProperties.OrganizedCallsCarryGroups` | src/renderer/RenderManager.ts:188-225 | every group call is for an enabled, non-empty group and carries exactly that group's members, sorted by name |
| `RenderProperties.OrganizedCallsOrdered` | src/renderer/RenderManager.ts:215-224 | the group calls come in the order public, protected, internal, internal protected, private, at most one per group |
| `RenderProperties.OrganizedCallsCover` | src/renderer/RenderManager.ts:210-224 | a group gets a call exactly when it is enabled and some member belongs to it |
| `RenderProperties.GroupedMemberRenderable` | src/renderer/RenderManager.ts:196-251 | a member whose group is enabled passes `shouldRender`, unless it falls into the private group without carrying the private flag |
| `RenderProperties.GroupingAgreesWithShouldRender` | src/renderer/RenderManager.ts:196-251 | for a member carrying exactly one of public, protected, internal, private, or internal with protected, `shouldRender` passes it exactly when its group is enabled |
| `RenderProperties.LoneMemberWithoutGroupCall` | src/renderer/RenderManager.ts:188-272 | a lone member that passes `shouldRender` while its group is hidden makes its category renderable, yet no group call follows |
| `RenderProperties.RenderableWithoutGroupCall` | src/renderer/RenderManager.ts:188-272 | a public and internal member under a public-only configuration makes its category renderable, yet no group call follows |
| `RenderProperties.ProtectedPrivateWithoutGroupCall` | src/renderer/RenderManager.ts:188-272 | a protected and private member under a private-only configuration passes `shouldRender`, is grouped as protected, and gets no group call |
| `RenderProperties.UnrenderableMemberRendered` | src/renderer/RenderManager.ts:203-207 | a member carrying no flag fails `shouldRender`, yet it is passed to the renderer in the private group once another member makes its category renderable |
| `RenderProperties.LabelIdentifiesGroup` | src/renderer/RenderManager.ts:215-224 | the accessibility strings handed to the renderer are distinct, so a call's group determines its label and back |
| `RenderManager.MakeFilePath` | src/renderer/RenderManager.ts:23-25 | the page directory is the namespace with every `.` replaced by `/` |
| `Strings.SplitJoin` | src/renderer/RenderManager.ts:24 | joining separator-free parts and splitting again gives the parts back |
| `Strings.JoinSplit` | src/models/interfaces/IHaveNestableTypes.ts:187 | the partner of `Split`: joining its pieces with the separator it split on gives the string back |
| `NestableTypes.ContainingTypesRejoin` | src/models/interfaces/IHaveNestableTypes.ts:187-190 | a file name is its containing types and its last piece: those are exactly the `split('+')` pieces, and joining them with `+` gives the name back |
| `RenderManager.PagePath` | src/renderer/RenderManager.ts:31-41 | the page of a type is its namespace with dots turned into slashes, then `/Name.md`; a type in the empty namespace lands at `Name.md` |
| `RenderProperties.PagePathSegments` | src/renderer/RenderManager.ts:31-41 | the page of a type in namespace `N1.….Nk` has the path segments `N1`, …, `Nk`, `Name.md`; a type in the empty namespace lands at `Name.md` |
| `RenderManager.GetDirectory` | src/renderer/RenderManager.ts:283-286 | the directory of a dotted name holds no dot, and a name without a dot has the empty directory |
| `RenderProperties.GetDirectoryOfFullName` | src/renderer/RenderManager.ts:283-286 | the directory of `Namespace.Name` is the namespace's page directory |
| `RenderProperties.WorkedRun` | src/renderer/RenderManager.ts:72-225 | a worked run: public class `Foo` in namespace `A` (public property `P`, private field `F`) and private class `Bar`, with only public classes and public properties shown, give exactly begin `Foo` at `A/Foo.md`, one public property call with `[P]`, and end `Foo` |

## Left out

- Reading the directory and the files (`readdirSync`, `readFileSync`), the
  ASCII decoding and the TypedJSON deserialization. A file is given with its
  already decoded kind tag, type name, accessibility flags and member
  collections. The I/O failures that matter to the walk are kept as errors:
  a folder named like a document, and a file whose name is not a document's.
- The base path and `path.join` on the Windows `\\` namespace trace. The
  namespace stack is kept as a value, pushed on entry and popped on exit.
  The directory to read is not derived from it: the model takes each
  listing from the `Entry` value itself.
- `SortByDepth`: the source comparator returns `-1` for two names with the
  same number of `+`, which is not a consistent ordering, so the order
  among entries of equal depth depends on the engine's sort. The model
  breaks such ties by name. The depth order the builder relies on is the
  same.
- `SortMembers`: `localeCompare` is locale-dependent. The model orders
  names lexicographically by character code, which is a total order with
  the same stability.
- Exceptions unwind without popping the namespace stack in the source. In
  the model an error ends the whole build, so the stack after a failure is
  never observed.
- The member back-references are wired when the type node is created
  rather than right after it is attached. A failed placement aborts the
  build either way, so the difference cannot be observed.
- The renderer's own output (the Markdown), the `map`/`projManager`
  arguments, and the argument records beyond the file path: a renderer
  callback is recorded with its kind, type name, accessibility group,
  member list and page path.
- The in-place sort of the model's member arrays done by
  `renderOrganizedMembers`: the model sorts a copy, since the dispatcher
  reads nothing back.
- `renderProperties`, `renderMethods`, `renderEvents`, `renderFields` are
  one function, `CategoryCalls`, over a category value.
- `getFilePath` (the output root joined with `getDirectory`) and
  `path.join`'s normalisation. `PagePath` joins with `/` and leaves the
  pieces alone.
- The symbol index and link binding (`bindToCodebaseMap`), the router, the
  cleaning of the output directory, and the rest of `app.ts`.
  `CodebaseMapperManager` is not part of this model. Neither is the source
  file of the `ModelTree` class: only its root node is modelled, by
  `ModelTree.NewTree`.

## Behaviour worth knowing

`render` tests `isValueType` before `isEnum` (RenderManager.ts:78-80), and
`DispatchKind` keeps that order. A type carrying both flags is rendered as
a struct, so `renderEnum` is reached only when the extractor leaves
`isValueType` unset for enums.

The grouping in `renderOrganizedMembers` and the test in `shouldRender`
read the accessibility flags differently. For a member carrying exactly
one of public, protected, internal, private, or both internal and
protected, they agree in both directions
(`GroupingAgreesWithShouldRender`, `InternalProtectedClassifiedOnce`).
Which flag combinations reach the renderer is decided by the tool that
extracts the metadata, and that tool is not part of this model. Nothing here
establishes that it only produces those combinations; C#'s
`private protected`, for instance, could arrive as protected together
with private. For other combinations the two disagree, as these lemmas
show:

- `RenderableWithoutGroupCall`: a member both public and internal is
  grouped as internal. Under a public-only configuration its category is
  visited and no group call follows.
- `ProtectedPrivateWithoutGroupCall`: a member both protected and private
  is grouped as protected. Under a private-only configuration it passes
  `shouldRender` and gets no group call.
- `LoneMemberWithoutGroupCall`: the general case of the two above.
- `UnrenderableMemberRendered`: a member with no flag fails
  `shouldRender` yet falls into the private group.

The builder keys each `children` entry by the type name the document
declares (IHaveNestableTypes.ts:177, :203), but the walk for a nested
type looks up the pieces of the file name (:198). The two agree only
when every document declares the type its file is named after.
`SameNameTakesOverNested` shows what happens otherwise: a second document
in the directory that declares `Outer`, for example `X.json`, which sorts
after `Outer.json`, replaces the `Outer` entry. `Outer+Inner.json` then
lands under that document's node. If `Outer.json` declares some other
name and nothing declares `Outer`, the nested document fails with
`DanglingContainingType` (`ParseFileDangling`).
