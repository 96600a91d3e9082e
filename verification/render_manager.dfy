/**
 * The render dispatcher. It performs no rendering itself: it decides, from
 * the configuration, which renderer callbacks happen and with what. Each
 * callback is recorded as a `Call`, so a run is the sequence of calls it
 * makes, in order.
 */
module RenderManager {
  import opened Results
  import opened Strings
  import opened Sorting
  import opened Language

  /** The five "show if" flags of one type kind or member kind. */
  datatype AccessConfig = AccessConfig(
    showIfPublic: bool,
    showIfProtected: bool,
    showIfInternal: bool,
    showIfInternalProtected: bool,
    showIfPrivate: bool)

  datatype TypeConfig = TypeConfig(
    forClass: AccessConfig, forStruct: AccessConfig, forEnum: AccessConfig,
    forInterface: AccessConfig, forDelegate: AccessConfig)

  datatype MemberConfig = MemberConfig(
    forProperty: AccessConfig, forMethod: AccessConfig, forEvent: AccessConfig, forField: AccessConfig)

  datatype Configuration = Configuration(types: TypeConfig, members: MemberConfig)

  /**
   * A type as the dispatcher sees it: kind flags, accessibility, namespace,
   * and member collections that may be absent.
   */
  datatype TypeModel = TypeModel(
    name: string,
    namespace: string,
    access: Access,
    isClass: bool,
    isValueType: bool,
    isEnum: bool,
    isInterface: bool,
    properties: Option<seq<Member>>,
    methods: Option<seq<Member>>,
    events: Option<seq<Member>>,
    fields: Option<seq<Member>>)

  /** The accessibility groups members are organised into. */
  datatype Group = Public | Protected | Internal | InternalProtected | Private

  datatype Category = Properties | Methods | Events | Fields

  /** One renderer callback with the arguments that matter here. */
  datatype Call =
    | BeginType(kind: TypeKind, typeName: string, filePath: string)
    | EndType(kind: TypeKind, typeName: string, filePath: string)
    | RenderGroup(category: Category, group: Group, members: seq<Member>, filePath: string)
    | RenderValues(typeName: string, values: Option<seq<Member>>, filePath: string)

  /** The accessibility string the renderer receives for a group. */
  function Label(g: Group): string
  {
    match g
    case Public => "public"
    case Protected => "protected"
    case Internal => "internal"
    case InternalProtected => "internal protected"
    case Private => "private"
  }

  /** Position of a group's call within one member category. */
  function EmitRank(g: Group): nat
  {
    match g
    case Public => 0
    case Protected => 1
    case Internal => 2
    case InternalProtected => 3
    case Private => 4
  }

  /** Position of a category's calls within a type. */
  function CategoryRank(cat: Category): nat
  {
    match cat
    case Properties => 0
    case Methods => 1
    case Events => 2
    case Fields => 3
  }

  /** Whether a configuration shows a group. */
  predicate Enabled(c: AccessConfig, g: Group)
  {
    match g
    case Public => c.showIfPublic
    case Protected => c.showIfProtected
    case Internal => c.showIfInternal
    case InternalProtected => c.showIfInternalProtected
    case Private => c.showIfPrivate
  }

  /** Whether an accessibility carries the flag (or, for internal protected, both flags) of a group. */
  predicate HasFlag(a: Access, g: Group)
  {
    match g
    case Public => a.isPublic
    case Protected => a.isProtected
    case Internal => a.isInternal
    case InternalProtected => a.isInternal && a.isProtected
    case Private => a.isPrivate
  }

  // ---------------------------------------------------------------------
  // Paths

  /** `namespace.split('.').join('/')`: the page directory of a namespace. */
  function MakeFilePath(namespace: string): (dir: string)
    ensures dir == Replace(namespace, '.', '/')
  {
    JoinSplitReplaces(namespace, '.', '/');
    Join(Split(namespace, '.'), '/')
  }

  /** `getDirectory`: the dotted name without its last segment, joined with `/`. */
  function GetDirectory(fullName: string): (dir: string)
    ensures '.' !in dir
    ensures '.' !in fullName ==> dir == ""
  {
    var names := Split(fullName, '.');
    JoinAvoids(names[..|names| - 1], '/', '.');
    if '.' !in fullName then
      SplitWithoutSeparator(fullName, '.');
      Join(names[..|names| - 1], '/')
    else
      Join(names[..|names| - 1], '/')
  }

  /** `path.join(dir, file)` without normalisation. */
  function JoinPath(dir: string, file: string): string
  {
    if |dir| == 0 then file else dir + "/" + file
  }

  /** The page a type is rendered to: `path.join(dir, name) + '.md'`. */
  function PagePath(t: TypeModel): (p: string)
    ensures |t.namespace| == 0 ==> p == t.name + ".md"
    ensures |t.namespace| > 0 ==> p == Replace(t.namespace, '.', '/') + "/" + t.name + ".md"
  {
    JoinPath(MakeFilePath(t.namespace), t.name) + ".md"
  }

  // ---------------------------------------------------------------------
  // Accessibility

  /**
   * `shouldRender`: internal protected is decided by its own flag alone;
   * otherwise some flag the model carries must be enabled.
   */
  function ShouldRender(a: Access, c: AccessConfig): (b: bool)
    ensures a.isInternal && a.isProtected ==> (b <==> c.showIfInternalProtected)
    ensures !(a.isInternal && a.isProtected) ==>
              (b <==> exists g :: g != InternalProtected && HasFlag(a, g) && Enabled(c, g))
  {
    if a.isInternal && a.isProtected then
      c.showIfInternalProtected
    else
      var b := (a.isPublic && c.showIfPublic) || (a.isProtected && c.showIfProtected)
               || (a.isInternal && c.showIfInternal) || (a.isPrivate && c.showIfPrivate);
      assert b ==> (HasFlag(a, Public) && Enabled(c, Public)) || (HasFlag(a, Protected) && Enabled(c, Protected))
                   || (HasFlag(a, Internal) && Enabled(c, Internal)) || (HasFlag(a, Private) && Enabled(c, Private));
      b
  }

  /**
   * `hasRenderableModels`: the loop over the members with the same
   * internal-protected-first test as `shouldRender`, stopping at the first
   * renderable member.
   */
  function HasRenderableModels(ms: seq<Member>, c: AccessConfig): (b: bool)
    ensures b <==> exists i :: 0 <= i < |ms| && ShouldRender(ms[i].access, c)
  {
    if |ms| == 0 then false
    else
      var a := ms[0].access;
      if a.isInternal && a.isProtected then
        if c.showIfInternalProtected then true
        else
          var rest := HasRenderableModels(ms[1..], c);
          assert rest ==> exists i :: 1 <= i < |ms| && ShouldRender(ms[i].access, c) by {
            if rest {
              var i :| 0 <= i < |ms[1..]| && ShouldRender(ms[1..][i].access, c);
              assert ms[1..][i] == ms[i + 1];
            }
          }
          rest
      else if (a.isPublic && c.showIfPublic) || (a.isProtected && c.showIfProtected)
              || (a.isInternal && c.showIfInternal) || (a.isPrivate && c.showIfPrivate) then
        true
      else
        var rest := HasRenderableModels(ms[1..], c);
        assert rest ==> exists i :: 1 <= i < |ms| && ShouldRender(ms[i].access, c) by {
          if rest {
            var i :| 0 <= i < |ms[1..]| && ShouldRender(ms[1..][i].access, c);
            assert ms[1..][i] == ms[i + 1];
          }
        }
        rest
  }

  /**
   * The group a member is organised into. The tests run in a fixed
   * precedence (internal and protected, internal, protected, public) and
   * private is the fallback, so every member falls in exactly one group.
   */
  function Classify(a: Access): (g: Group)
    ensures g == InternalProtected <==> a.isInternal && a.isProtected
    ensures g == Internal <==> a.isInternal && !a.isProtected
    ensures g == Protected <==> !a.isInternal && a.isProtected
    ensures g == Public <==> !a.isInternal && !a.isProtected && a.isPublic
    ensures g == Private <==> !a.isInternal && !a.isProtected && !a.isPublic
  {
    if a.isInternal && a.isProtected then InternalProtected
    else if a.isInternal then Internal
    else if a.isProtected then Protected
    else if a.isPublic then Public
    else Private
  }

  // ---------------------------------------------------------------------
  // Organising members

  function NameKey(m: Member): Key
  {
    Key(0, m.name)
  }

  predicate NameSorted(ms: seq<Member>)
  {
    forall i, j :: 0 <= i < j < |ms| ==> LexLe(ms[i].name, ms[j].name)
  }

  /** `models.sort((a, b) => a.name.localeCompare(b.name))`, stable. */
  function SortMembers(ms: seq<Member>): (sorted: seq<Member>)
    ensures multiset(sorted) == multiset(ms)
    ensures NameSorted(sorted)
  {
    SortByKeyPermutation(ms, NameKey);
    SortByKeySorted(ms, NameKey);
    SortByKey(ms, NameKey)
  }

  /** The members of `ms` in group `g`, in their order in `ms`. */
  function InGroup(ms: seq<Member>, g: Group): (r: seq<Member>)
    ensures forall m :: m in r <==> m in ms && Classify(m.access) == g
    ensures |r| <= |ms|
  {
    if |ms| == 0 then []
    else (if Classify(ms[0].access) == g then [ms[0]] else []) + InGroup(ms[1..], g)
  }

  /** The five arrays `renderOrganizedMembers` fills. */
  datatype Buckets = Buckets(
    publicModels: seq<Member>,
    privateModels: seq<Member>,
    protectedModels: seq<Member>,
    internalModels: seq<Member>,
    internalAndProtectedModels: seq<Member>)
  {
    function Get(g: Group): seq<Member>
    {
      match g
      case Public => publicModels
      case Protected => protectedModels
      case Internal => internalModels
      case InternalProtected => internalAndProtectedModels
      case Private => privateModels
    }
  }

  const NoBuckets := Buckets([], [], [], [], [])

  /** One iteration of the grouping loop: push the member onto one array. */
  function Push(b: Buckets, m: Member): Buckets
  {
    var a := m.access;
    if a.isInternal && a.isProtected then b.(internalAndProtectedModels := b.internalAndProtectedModels + [m])
    else if a.isInternal then b.(internalModels := b.internalModels + [m])
    else if a.isProtected then b.(protectedModels := b.protectedModels + [m])
    else if a.isPublic then b.(publicModels := b.publicModels + [m])
    else b.(privateModels := b.privateModels + [m])
  }

  lemma PushGet(b: Buckets, m: Member, g: Group)
    ensures Push(b, m).Get(g) == b.Get(g) + (if Classify(m.access) == g then [m] else [])
  {
  }

  /** The grouping loop: every array ends up holding exactly its group's members, in input order. */
  function Organize(ms: seq<Member>, b: Buckets): (r: Buckets)
    ensures forall g :: r.Get(g) == b.Get(g) + InGroup(ms, g)
  {
    if |ms| == 0 then b
    else
      var r := Organize(ms[1..], Push(b, ms[0]));
      assert forall g :: r.Get(g) == b.Get(g) + InGroup(ms, g) by {
        forall g
          ensures r.Get(g) == b.Get(g) + InGroup(ms, g)
        {
          OrganizeStep(ms, b, r.Get(g), g);
        }
      }
      r
  }

  lemma AppendAssociative<T>(x: seq<T>, y: seq<T>, z: seq<T>)
    ensures x + y + z == x + (y + z)
  {
  }

  /** One step of the grouping loop, for one group. */
  lemma OrganizeStep(ms: seq<Member>, b: Buckets, rest: seq<Member>, g: Group)
    requires |ms| > 0
    requires rest == Push(b, ms[0]).Get(g) + InGroup(ms[1..], g)
    ensures rest == b.Get(g) + InGroup(ms, g)
  {
    PushGet(b, ms[0], g);
    if Classify(ms[0].access) == g {
      assert InGroup(ms, g) == [ms[0]] + InGroup(ms[1..], g);
      AppendAssociative(b.Get(g), [ms[0]], InGroup(ms[1..], g));
    } else {
      assert InGroup(ms, g) == InGroup(ms[1..], g);
    }
  }

  /** At most one call for a group: only when it is enabled and non-empty. */
  function GroupCall(cat: Category, g: Group, members: seq<Member>, c: AccessConfig, path: string): seq<Call>
  {
    if Enabled(c, g) && |members| > 0 then [RenderGroup(cat, g, members, path)] else []
  }

  /** The order in which group calls are made. */
  const EmissionOrder: seq<Group> := [Public, Protected, Internal, InternalProtected, Private]

  /** A non-empty group call of category `cat` on page `path`, for a group `c` shows. */
  predicate EnabledGroupCall(call: Call, cat: Category, c: AccessConfig, path: string)
  {
    call.RenderGroup? && call.category == cat && call.filePath == path && Enabled(c, call.group) && |call.members| > 0
  }

  /** A group call carrying exactly the members of `ms` in its group, in their order in `ms`. */
  predicate CarriesGroupOf(call: Call, ms: seq<Member>)
  {
    call.RenderGroup? && call.members == InGroup(ms, call.group)
  }

  /** Every call is an enabled, non-empty group call for one of the listed groups, carrying that group's bucket. */
  function EmitGroups(cat: Category, gs: seq<Group>, b: Buckets, c: AccessConfig, path: string): (r: seq<Call>)
    ensures forall call :: call in r ==>
              EnabledGroupCall(call, cat, c, path) && call.group in gs && call.members == b.Get(call.group)
  {
    if |gs| == 0 then [] else GroupCall(cat, gs[0], b.Get(gs[0]), c, path) + EmitGroups(cat, gs[1..], b, c, path)
  }

  /**
   * `renderOrganizedMembers`: sort by name, group, then one call per
   * enabled non-empty group in the order public, protected, internal,
   * internal protected, private.
   */
  function RenderOrganizedMembers(cat: Category, ms: seq<Member>, c: AccessConfig, path: string): (r: seq<Call>)
    ensures forall call :: call in r ==> EnabledGroupCall(call, cat, c, path) && CarriesGroupOf(call, SortMembers(ms))
  {
    var b := Organize(SortMembers(ms), NoBuckets);
    assert forall g :: b.Get(g) == InGroup(SortMembers(ms), g) by {
      forall g
        ensures b.Get(g) == InGroup(SortMembers(ms), g)
      {
        assert NoBuckets.Get(g) == [];
        assert [] + InGroup(SortMembers(ms), g) == InGroup(SortMembers(ms), g);
      }
    }
    EmitGroups(cat, EmissionOrder, b, c, path)
  }

  // ---------------------------------------------------------------------
  // Types

  /**
   * The calls for one member category: none when absent, empty, or nothing
   * in it is renderable; otherwise the organised group calls of its members.
   */
  function CategoryCalls(cat: Category, ms: Option<seq<Member>>, c: AccessConfig, path: string): (r: seq<Call>)
    ensures r != [] ==> ms.Some? && |ms.value| > 0 && exists i :: 0 <= i < |ms.value| && ShouldRender(ms.value[i].access, c)
    ensures forall call :: call in r ==>
              ms.Some? && EnabledGroupCall(call, cat, c, path) && CarriesGroupOf(call, SortMembers(ms.value))
  {
    match ms
    case None => []
    case Some(list) =>
      if |list| > 0 && HasRenderableModels(list, c) then RenderOrganizedMembers(cat, list, c, path) else []
  }

  /** The order in which `renderMembers` visits the member categories. */
  const CategoryOrder: seq<Category> := [Properties, Methods, Events, Fields]

  function CategoryMembers(t: TypeModel, cat: Category): Option<seq<Member>>
  {
    match cat
    case Properties => t.properties
    case Methods => t.methods
    case Events => t.events
    case Fields => t.fields
  }

  function CategoryConfig(c: MemberConfig, cat: Category): AccessConfig
  {
    match cat
    case Properties => c.forProperty
    case Methods => c.forMethod
    case Events => c.forEvent
    case Fields => c.forField
  }

  /** Whether a category of a type is visited: present, non-empty, and holding a renderable member. */
  predicate CategoryShown(t: TypeModel, cat: Category, c: MemberConfig)
  {
    && CategoryMembers(t, cat).Some?
    && |CategoryMembers(t, cat).value| > 0
    && HasRenderableModels(CategoryMembers(t, cat).value, CategoryConfig(c, cat))
  }

  /**
   * A call of one category's rendering: for a visited category, an enabled
   * group's call on the type's page, carrying that group's members sorted
   * by name.
   */
  predicate GoodMemberCall(t: TypeModel, c: MemberConfig, call: Call)
  {
    && call.RenderGroup?
    && call.filePath == PagePath(t)
    && CategoryShown(t, call.category, c)
    && Enabled(CategoryConfig(c, call.category), call.group)
    && |call.members| > 0
    && call.members == InGroup(SortMembers(CategoryMembers(t, call.category).value), call.group)
  }

  function EmitCategories(t: TypeModel, cats: seq<Category>, c: MemberConfig): (r: seq<Call>)
    ensures forall call :: call in r ==>
              call.RenderGroup? && EnabledGroupCall(call, call.category, CategoryConfig(c, call.category), PagePath(t)) && call.category in cats
  {
    if |cats| == 0 then []
    else
      CategoryCalls(cats[0], CategoryMembers(t, cats[0]), CategoryConfig(c, cats[0]), PagePath(t))
      + EmitCategories(t, cats[1..], c)
  }

  /** `renderMembers`: properties, methods, events, then fields. */
  function RenderMembers(t: TypeModel, c: MemberConfig): (r: seq<Call>)
    ensures forall call :: call in r ==> call.RenderGroup? && EnabledGroupCall(call, call.category, CategoryConfig(c, call.category), PagePath(t))
  {
    EmitCategories(t, CategoryOrder, c)
  }

  /** The handler `render` picks: the first true of isClass, isValueType, isEnum, isInterface; delegate otherwise. */
  function DispatchKind(t: TypeModel): (k: TypeKind)
    ensures k == Class <==> t.isClass
    ensures k == Struct <==> !t.isClass && t.isValueType
    ensures k == Enum <==> !t.isClass && !t.isValueType && t.isEnum
    ensures k == Interface <==> !t.isClass && !t.isValueType && !t.isEnum && t.isInterface
    ensures k == Delegate <==> !t.isClass && !t.isValueType && !t.isEnum && !t.isInterface
  {
    if t.isClass then Class
    else if t.isValueType then Struct
    else if t.isEnum then Enum
    else if t.isInterface then Interface
    else Delegate
  }

  /** The type-kind visibility flags the handler for `k` consults. */
  function KindConfig(c: TypeConfig, k: TypeKind): AccessConfig
  {
    match k
    case Class => c.forClass
    case Struct => c.forStruct
    case Enum => c.forEnum
    case Interface => c.forInterface
    case Delegate => c.forDelegate
  }

  /** A group call of some category, on page `path`, that the member configuration shows. */
  predicate MemberGroupCall(call: Call, c: MemberConfig, path: string)
  {
    call.RenderGroup? && EnabledGroupCall(call, call.category, CategoryConfig(c, call.category), path)
  }

  /** Member group calls framed by a begin and an end call keep their places in the middle. */
  lemma Framed(begin: Call, members: seq<Call>, end: Call, c: MemberConfig, path: string)
    requires forall call :: call in members ==> MemberGroupCall(call, c, path)
    ensures var r := [begin] + members + [end];
      && |r| >= 2 && r[0] == begin && r[|r| - 1] == end
      && forall i :: 0 < i < |r| - 1 ==> MemberGroupCall(r[i], c, path)
  {
    var r := [begin] + members + [end];
    forall i | 0 < i < |r| - 1
      ensures MemberGroupCall(r[i], c, path)
    {
      assert r[i] == members[i - 1];
    }
  }

  /** `renderClass`, `renderStruct` and `renderInterface`: begin, members, end. */
  function RenderWithMembers(k: TypeKind, t: TypeModel, c: Configuration): (r: seq<Call>)
    ensures r == [] <==> !ShouldRender(t.access, KindConfig(c.types, k))
    ensures r != [] ==>
              && |r| >= 2 && r[0] == BeginType(k, t.name, PagePath(t)) && r[|r| - 1] == EndType(k, t.name, PagePath(t))
              && forall i :: 0 < i < |r| - 1 ==> MemberGroupCall(r[i], c.members, PagePath(t))
  {
    if !ShouldRender(t.access, KindConfig(c.types, k)) then []
    else
      var path := PagePath(t);
      var members := RenderMembers(t, c.members);
      Framed(BeginType(k, t.name, path), members, EndType(k, t.name, path), c.members, path);
      [BeginType(k, t.name, path)] + members + [EndType(k, t.name, path)]
  }

  /** `renderEnum`: begin, every field as a value, end. */
  function RenderEnum(t: TypeModel, c: Configuration): (r: seq<Call>)
    ensures r == [] <==> !ShouldRender(t.access, c.types.forEnum)
    ensures r != [] ==>
              && |r| >= 2 && r[0] == BeginType(Enum, t.name, PagePath(t)) && r[|r| - 1] == EndType(Enum, t.name, PagePath(t))
              && RenderValues(t.name, t.fields, PagePath(t)) in r
    ensures forall call :: call in r ==> !call.RenderGroup? && call.filePath == PagePath(t)
  {
    if !ShouldRender(t.access, c.types.forEnum) then []
    else [BeginType(Enum, t.name, PagePath(t)), RenderValues(t.name, t.fields, PagePath(t)), EndType(Enum, t.name, PagePath(t))]
  }

  /** `renderDelegate`: begin and end, no members. */
  function RenderDelegate(t: TypeModel, c: Configuration): (r: seq<Call>)
    ensures r == [] <==> !ShouldRender(t.access, c.types.forDelegate)
    ensures r != [] ==> |r| >= 2 && r[0] == BeginType(Delegate, t.name, PagePath(t)) && r[|r| - 1] == EndType(Delegate, t.name, PagePath(t))
    ensures forall call :: call in r ==> (call.BeginType? || call.EndType?) && call.kind == Delegate
  {
    if !ShouldRender(t.access, c.types.forDelegate) then []
    else [BeginType(Delegate, t.name, PagePath(t)), EndType(Delegate, t.name, PagePath(t))]
  }

  /** One iteration of `render`: the type goes to exactly one handler. */
  function RenderType(t: TypeModel, c: Configuration): (r: seq<Call>)
    ensures r == [] <==> !ShouldRender(t.access, KindConfig(c.types, DispatchKind(t)))
    ensures r != [] ==>
              && |r| >= 2
              && r[0] == BeginType(DispatchKind(t), t.name, PagePath(t))
              && r[|r| - 1] == EndType(DispatchKind(t), t.name, PagePath(t))
  {
    match DispatchKind(t)
    case Class => RenderWithMembers(Class, t, c)
    case Struct => RenderWithMembers(Struct, t, c)
    case Enum => RenderEnum(t, c)
    case Interface => RenderWithMembers(Interface, t, c)
    case Delegate => RenderDelegate(t, c)
  }

  /** Whether every type's kind configuration hides it. */
  predicate AllHidden(types: seq<TypeModel>, c: Configuration)
  {
    forall i :: 0 <= i < |types| ==> !ShouldRender(types[i].access, KindConfig(c.types, DispatchKind(types[i])))
  }

  /** `render`: every type of the project, in order; no call at all exactly when every type is hidden. */
  function Render(types: seq<TypeModel>, c: Configuration): (r: seq<Call>)
    ensures r == [] <==> AllHidden(types, c)
  {
    if |types| == 0 then []
    else
      var r := RenderType(types[0], c) + Render(types[1..], c);
      assert forall i :: 0 < i < |types| ==> types[i] == types[1..][i - 1];
      r
  }
}
