/**
 * Properties of the render dispatcher: what each group call carries and in
 * which order the calls come, which types and categories produce no call,
 * where pages go, and how the renderability test relates to the grouping.
 */
module RenderProperties {
  import opened Results
  import opened Strings
  import opened Sorting
  import opened Language
  import opened RenderManager

  // ---------------------------------------------------------------------
  // Grouping

  /** Every member falls in exactly one group: the five groups partition the members. */
  lemma GroupsPartition(ms: seq<Member>)
    ensures multiset(ms) == multiset(InGroup(ms, Public)) + multiset(InGroup(ms, Protected))
                            + multiset(InGroup(ms, Internal)) + multiset(InGroup(ms, InternalProtected))
                            + multiset(InGroup(ms, Private))
  {
    var parts := multiset(InGroup(ms, Public)) + multiset(InGroup(ms, Protected))
                 + multiset(InGroup(ms, Internal)) + multiset(InGroup(ms, InternalProtected))
                 + multiset(InGroup(ms, Private));
    InGroupCounts(ms, Public);
    InGroupCounts(ms, Protected);
    InGroupCounts(ms, Internal);
    InGroupCounts(ms, InternalProtected);
    InGroupCounts(ms, Private);
    forall m
      ensures multiset(ms)[m] == parts[m]
    {
    }
    assert multiset(ms) == parts;
  }

  /** A group keeps the name order of the sorted members it is drawn from. */
  lemma {:induction false} InGroupSorted(ms: seq<Member>, g: Group)
    requires NameSorted(ms)
    ensures NameSorted(InGroup(ms, g))
  {
    if |ms| > 0 {
      var rest := InGroup(ms[1..], g);
      InGroupSorted(ms[1..], g);
      forall m | m in rest
        ensures LexLe(ms[0].name, m.name)
      {
        var k :| 0 <= k < |ms[1..]| && ms[1..][k] == m;
        assert ms[k + 1] == m;
      }
    }
  }

  /** A call for group `g`. */
  predicate IsGroupCall(call: Call, g: Group)
  {
    call.RenderGroup? && call.group == g
  }

  /** Group calls only, each of a later group than the one before. */
  predicate GroupsAscending(calls: seq<Call>)
  {
    forall i, j :: 0 <= i < j < |calls| ==> GroupBefore(calls[i], calls[j])
  }

  /** Two group calls, the first of an earlier group. */
  predicate GroupBefore(a: Call, b: Call)
  {
    a.RenderGroup? && b.RenderGroup? && EmitRank(a.group) < EmitRank(b.group)
  }

  /** `EmitGroups` calls a group exactly when it is enabled and its bucket is non-empty. */
  lemma {:induction false} EmitGroupsCovers(cat: Category, gs: seq<Group>, b: Buckets, c: AccessConfig, path: string, g: Group)
    requires g in gs
    ensures (exists call :: call in EmitGroups(cat, gs, b, c, path) && IsGroupCall(call, g))
            <==> Enabled(c, g) && |b.Get(g)| > 0
  {
    var calls := EmitGroups(cat, gs, b, c, path);
    if gs[0] == g {
      if Enabled(c, g) && |b.Get(g)| > 0 {
        assert IsGroupCall(calls[0], g);
      }
    } else {
      assert g in gs[1..];
      EmitGroupsCovers(cat, gs[1..], b, c, path, g);
    }
  }

  /** With the groups listed in increasing rank, the calls come in increasing rank. */
  lemma {:induction false} EmitGroupsOrdered(cat: Category, gs: seq<Group>, b: Buckets, c: AccessConfig, path: string)
    requires forall i, j :: 0 <= i < j < |gs| ==> EmitRank(gs[i]) < EmitRank(gs[j])
    ensures GroupsAscending(EmitGroups(cat, gs, b, c, path))
  {
    if |gs| > 0 {
      var head := GroupCall(cat, gs[0], b.Get(gs[0]), c, path);
      var rest := EmitGroups(cat, gs[1..], b, c, path);
      EmitGroupsOrdered(cat, gs[1..], b, c, path);
      forall x, y | x in head && y in rest
        ensures GroupBefore(x, y)
      {
        var k :| 0 <= k < |gs[1..]| && gs[1..][k] == y.group;
        assert gs[k + 1] == y.group;
      }
      GroupsAscendingAppend(head, rest);
    }
  }

  /** Two ascending runs of group calls, every call of the first ranked below the second's, form one. */
  lemma GroupsAscendingAppend(head: seq<Call>, rest: seq<Call>)
    requires |head| <= 1 && forall x :: x in head ==> x.RenderGroup?
    requires GroupsAscending(rest)
    requires forall x, y :: x in head && y in rest ==> GroupBefore(x, y)
    ensures GroupsAscending(head + rest)
  {
    forall i, j | 0 <= i < j < |head + rest|
      ensures GroupBefore((head + rest)[i], (head + rest)[j])
    {
      var calls := head + rest;
      assert calls[j] == rest[j - |head|];
      if i >= |head| {
        assert calls[i] == rest[i - |head|];
      } else {
        assert calls[i] in head && calls[j] in rest;
      }
    }
  }

  /** The groups of the members of `ms`, as the bucket contents they end up in. */
  lemma SortedGroups(ms: seq<Member>, g: Group)
    ensures NameSorted(InGroup(SortMembers(ms), g))
    ensures multiset(InGroup(SortMembers(ms), g)) == multiset(InGroup(ms, g))
    ensures |InGroup(SortMembers(ms), g)| > 0 <==> exists m :: m in ms && Classify(m.access) == g
  {
    var sorted := SortMembers(ms);
    InGroupSorted(sorted, g);
    InGroupPermutation(ms, sorted, g);
    if exists m :: m in ms && Classify(m.access) == g {
      var m :| m in ms && Classify(m.access) == g;
      assert m in multiset(sorted);
      assert m in InGroup(sorted, g);
    }
    if |InGroup(sorted, g)| > 0 {
      assert InGroup(sorted, g)[0] in sorted;
      assert InGroup(sorted, g)[0] in multiset(ms);
    }
  }

  lemma EveryGroupEmitted(g: Group)
    ensures g in EmissionOrder
  {
    match g
    case Public => assert EmissionOrder[0] == g;
    case Protected => assert EmissionOrder[1] == g;
    case Internal => assert EmissionOrder[2] == g;
    case InternalProtected => assert EmissionOrder[3] == g;
    case Private => assert EmissionOrder[4] == g;
  }

  /** The buckets `renderOrganizedMembers` fills are the groups of the sorted members. */
  lemma OrganizedBuckets(ms: seq<Member>, g: Group)
    ensures Organize(SortMembers(ms), NoBuckets).Get(g) == InGroup(SortMembers(ms), g)
  {
    assert NoBuckets.Get(g) == [];
  }

  /**
   * Every call of `renderOrganizedMembers` is for an enabled group and
   * carries exactly the members of that group, sorted by name, and never
   * none.
   */
  lemma OrganizedCallsCarryGroups(cat: Category, ms: seq<Member>, c: AccessConfig, path: string)
    ensures forall call :: call in RenderOrganizedMembers(cat, ms, c, path) ==>
              && call.RenderGroup? && call.category == cat && call.filePath == path
              && Enabled(c, call.group) && |call.members| > 0
              && call.members == InGroup(SortMembers(ms), call.group)
              && NameSorted(call.members)
              && multiset(call.members) == multiset(InGroup(ms, call.group))
  {
    var b := Organize(SortMembers(ms), NoBuckets);
    forall g
      ensures b.Get(g) == InGroup(SortMembers(ms), g)
      ensures NameSorted(b.Get(g)) && multiset(b.Get(g)) == multiset(InGroup(ms, g))
    {
      OrganizedBuckets(ms, g);
      SortedGroups(ms, g);
    }
  }

  lemma EmissionOrderAscending()
    ensures forall i, j :: 0 <= i < j < |EmissionOrder| ==> EmitRank(EmissionOrder[i]) < EmitRank(EmissionOrder[j])
  {
  }

  /** The group calls come in the order public, protected, internal, internal protected, private. */
  lemma OrganizedCallsOrdered(cat: Category, ms: seq<Member>, c: AccessConfig, path: string)
    ensures GroupsAscending(RenderOrganizedMembers(cat, ms, c, path))
  {
    EmissionOrderAscending();
    EmitGroupsOrdered(cat, EmissionOrder, Organize(SortMembers(ms), NoBuckets), c, path);
  }

  /** A group gets a call exactly when it is enabled and some member belongs to it. */
  lemma OrganizedCallsCover(cat: Category, ms: seq<Member>, c: AccessConfig, path: string, g: Group)
    ensures (exists call :: call in RenderOrganizedMembers(cat, ms, c, path) && IsGroupCall(call, g))
            <==> Enabled(c, g) && exists m :: m in ms && Classify(m.access) == g
  {
    var b := Organize(SortMembers(ms), NoBuckets);
    OrganizedBuckets(ms, g);
    SortedGroups(ms, g);
    EveryGroupEmitted(g);
    EmitGroupsCovers(cat, EmissionOrder, b, c, path, g);
  }

  /** Grouping commutes with permuting: a group of a permutation is a permutation of the group. */
  lemma {:induction false} InGroupPermutation(ms: seq<Member>, ps: seq<Member>, g: Group)
    requires multiset(ps) == multiset(ms)
    ensures multiset(InGroup(ps, g)) == multiset(InGroup(ms, g))
  {
    InGroupCounts(ms, g);
    InGroupCounts(ps, g);
  }

  /** The multiset of a group is the multiset of the members filtered by group. */
  lemma {:induction false} InGroupCounts(ms: seq<Member>, g: Group)
    ensures forall m :: multiset(InGroup(ms, g))[m] == if Classify(m.access) == g then multiset(ms)[m] else 0
  {
    if |ms| > 0 {
      InGroupCounts(ms[1..], g);
      assert ms == [ms[0]] + ms[1..];
    }
  }

  // ---------------------------------------------------------------------
  // Member categories

  /**
   * Group calls only, ordered by category (properties, methods, events,
   * fields) and within a category by group.
   */
  predicate CallsInOrder(calls: seq<Call>)
  {
    forall i, j :: 0 <= i < j < |calls| ==> CallPairInOrder(calls[i], calls[j])
  }

  lemma CategoryCallsShape(t: TypeModel, cat: Category, c: MemberConfig)
    ensures forall call :: call in CategoryCalls(cat, CategoryMembers(t, cat), CategoryConfig(c, cat), PagePath(t)) ==>
              GoodMemberCall(t, c, call) && call.category == cat
    ensures GroupsAscending(CategoryCalls(cat, CategoryMembers(t, cat), CategoryConfig(c, cat), PagePath(t)))
  {
    var ms := CategoryMembers(t, cat);
    if ms.Some? {
      OrganizedCallsCarryGroups(cat, ms.value, CategoryConfig(c, cat), PagePath(t));
      OrganizedCallsOrdered(cat, ms.value, CategoryConfig(c, cat), PagePath(t));
    }
  }

  lemma {:induction false} EmitCategoriesShape(t: TypeModel, cats: seq<Category>, c: MemberConfig)
    ensures forall call :: call in EmitCategories(t, cats, c) ==> GoodMemberCall(t, c, call) && call.category in cats
  {
    if |cats| > 0 {
      CategoryCallsShape(t, cats[0], c);
      EmitCategoriesShape(t, cats[1..], c);
    }
  }

  lemma {:induction false} EmitCategoriesOrdered(t: TypeModel, cats: seq<Category>, c: MemberConfig)
    requires forall i, j :: 0 <= i < j < |cats| ==> CategoryRank(cats[i]) < CategoryRank(cats[j])
    ensures CallsInOrder(EmitCategories(t, cats, c))
  {
    if |cats| > 0 {
      var head := CategoryCalls(cats[0], CategoryMembers(t, cats[0]), CategoryConfig(c, cats[0]), PagePath(t));
      var rest := EmitCategories(t, cats[1..], c);
      CategoryCallsShape(t, cats[0], c);
      EmitCategoriesShape(t, cats[1..], c);
      EmitCategoriesOrdered(t, cats[1..], c);
      forall call | call in rest
        ensures CategoryRank(cats[0]) < CategoryRank(call.category)
      {
        var k :| 0 <= k < |cats[1..]| && cats[1..][k] == call.category;
        assert cats[k + 1] == call.category;
      }
      OneCategoryInOrder(head, cats[0]);
      CallsInOrderAppend(head, rest);
    }
  }

  /** Group calls of one category in group order are in order. */
  lemma OneCategoryInOrder(calls: seq<Call>, cat: Category)
    requires GroupsAscending(calls)
    requires forall call :: call in calls ==> call.RenderGroup? && call.category == cat
    ensures CallsInOrder(calls)
  {
    forall i, j | 0 <= i < j < |calls|
      ensures calls[i].category == calls[j].category
    {
      assert calls[i] in calls && calls[j] in calls;
    }
  }

  /** Two runs in order, every category of the first below every category of the second, are in order together. */
  lemma CallsInOrderAppend(head: seq<Call>, rest: seq<Call>)
    requires CallsInOrder(head) && CallsInOrder(rest)
    requires forall x, y :: x in head && y in rest ==>
               x.RenderGroup? && y.RenderGroup? && CategoryRank(x.category) < CategoryRank(y.category)
    ensures CallsInOrder(head + rest)
  {
    forall i, j | 0 <= i < j < |head + rest|
      ensures CallPairInOrder((head + rest)[i], (head + rest)[j])
    {
      AppendPair(head, rest, i, j);
    }
  }

  /** Two calls in the order `CallsInOrder` asks for. */
  predicate CallPairInOrder(a: Call, b: Call)
  {
    && a.RenderGroup? && b.RenderGroup?
    && (|| CategoryRank(a.category) < CategoryRank(b.category)
        || (a.category == b.category && EmitRank(a.group) < EmitRank(b.group)))
  }

  lemma AppendPair(head: seq<Call>, rest: seq<Call>, i: nat, j: nat)
    requires CallsInOrder(head) && CallsInOrder(rest)
    requires forall x, y :: x in head && y in rest ==>
               x.RenderGroup? && y.RenderGroup? && CategoryRank(x.category) < CategoryRank(y.category)
    requires i < j < |head + rest|
    ensures CallPairInOrder((head + rest)[i], (head + rest)[j])
  {
    var calls := head + rest;
    if j < |head| {
      assert calls[i] == head[i] && calls[j] == head[j];
    } else if i < |head| {
      assert calls[i] == head[i] && calls[i] in head;
      assert calls[j] == rest[j - |head|] && calls[j] in rest;
    } else {
      assert calls[i] == rest[i - |head|] && calls[j] == rest[j - |head|];
    }
  }

  lemma CategoryOrderAscending()
    ensures forall i, j :: 0 <= i < j < |CategoryOrder| ==> CategoryRank(CategoryOrder[i]) < CategoryRank(CategoryOrder[j])
  {
  }

  lemma EveryCategoryVisited(cat: Category)
    ensures cat in CategoryOrder
  {
    match cat
    case Properties => assert CategoryOrder[0] == cat;
    case Methods => assert CategoryOrder[1] == cat;
    case Events => assert CategoryOrder[2] == cat;
    case Fields => assert CategoryOrder[3] == cat;
  }

  /**
   * `renderMembers` makes group calls only, category by category in the
   * order properties, methods, events, fields, and within a category in
   * group order; every call is for a visited category and an enabled
   * non-empty group, and carries that group of the category's members.
   */
  lemma RenderMembersCalls(t: TypeModel, c: MemberConfig)
    ensures forall call :: call in RenderMembers(t, c) ==> GoodMemberCall(t, c, call)
    ensures CallsInOrder(RenderMembers(t, c))
  {
    CategoryOrderAscending();
    EmitCategoriesShape(t, CategoryOrder, c);
    EmitCategoriesOrdered(t, CategoryOrder, c);
  }

  /** A category that is absent, empty or holds nothing renderable gets no call. */
  lemma RenderMembersSkips(t: TypeModel, c: MemberConfig, cat: Category)
    requires !CategoryShown(t, cat, c)
    ensures forall call :: call in RenderMembers(t, c) ==> call.RenderGroup? && call.category != cat
  {
    RenderMembersCalls(t, c);
  }

  /**
   * A visited category gets a call for group `g` exactly when `g` is
   * enabled for the category and some member of the category is in `g`.
   */
  lemma RenderMembersCover(t: TypeModel, c: MemberConfig, cat: Category, g: Group)
    requires CategoryShown(t, cat, c)
    ensures (exists call :: call in RenderMembers(t, c) && call.RenderGroup? && call.category == cat && call.group == g)
            <==> Enabled(CategoryConfig(c, cat), g) && exists m :: m in CategoryMembers(t, cat).value && Classify(m.access) == g
  {
    var ms := CategoryMembers(t, cat).value;
    var cfg := CategoryConfig(c, cat);
    var own := RenderOrganizedMembers(cat, ms, cfg, PagePath(t));
    OrganizedCallsCover(cat, ms, cfg, PagePath(t), g);
    CategoryPartOfMembers(t, c, cat);
    if Enabled(cfg, g) && exists m :: m in ms && Classify(m.access) == g {
      var call :| call in own && IsGroupCall(call, g);
      assert call in RenderMembers(t, c);
    }
  }

  /** The calls of a visited category within `renderMembers` are exactly its organised group calls. */
  lemma CategoryPartOfMembers(t: TypeModel, c: MemberConfig, cat: Category)
    requires CategoryShown(t, cat, c)
    ensures forall call :: call in RenderMembers(t, c) && call.RenderGroup? && call.category == cat <==>
              call in RenderOrganizedMembers(cat, CategoryMembers(t, cat).value, CategoryConfig(c, cat), PagePath(t))
  {
    var ms := CategoryMembers(t, cat).value;
    var cfg := CategoryConfig(c, cat);
    assert CategoryCalls(cat, CategoryMembers(t, cat), cfg, PagePath(t)) == RenderOrganizedMembers(cat, ms, cfg, PagePath(t));
    EmitCategoriesPart(t, CategoryOrder, c, cat);
    EveryCategoryVisited(cat);
  }

  /** The calls of one category within `EmitCategories` are exactly that category's own calls. */
  lemma {:induction false} EmitCategoriesPart(t: TypeModel, cats: seq<Category>, c: MemberConfig, cat: Category)
    requires cat in cats
    ensures forall call :: call in EmitCategories(t, cats, c) && call.RenderGroup? && call.category == cat ==>
              call in CategoryCalls(cat, CategoryMembers(t, cat), CategoryConfig(c, cat), PagePath(t))
    ensures forall call :: call in CategoryCalls(cat, CategoryMembers(t, cat), CategoryConfig(c, cat), PagePath(t)) ==>
              call in EmitCategories(t, cats, c)
  {
    CategoryCallsShape(t, cats[0], c);
    if cats[0] != cat {
      assert cat in cats[1..];
      EmitCategoriesPart(t, cats[1..], c, cat);
    } else if cat in cats[1..] {
      EmitCategoriesPart(t, cats[1..], c, cat);
    } else {
    }
  }

  // ---------------------------------------------------------------------
  // Types

  /**
   * Between a shown type's begin and end calls comes the kind's middle
   * part: member group calls for classes, structs and interfaces, the
   * unfiltered fields as values for enums, nothing for delegates.
   */
  lemma RenderTypeShape(t: TypeModel, c: Configuration)
    ensures RenderType(t, c) != [] && DispatchKind(t) in {Class, Struct, Interface} ==>
              RenderType(t, c)[1..|RenderType(t, c)| - 1] == RenderMembers(t, c.members)
    ensures RenderType(t, c) != [] && DispatchKind(t) == Enum ==>
              RenderType(t, c)[1..|RenderType(t, c)| - 1] == [RenderValues(t.name, t.fields, PagePath(t))]
    ensures RenderType(t, c) != [] && DispatchKind(t) == Delegate ==> |RenderType(t, c)| == 2
  {
    var calls := RenderType(t, c);
    if calls != [] && DispatchKind(t) in {Class, Struct, Interface} {
      var k := DispatchKind(t);
      assert calls == [BeginType(k, t.name, PagePath(t))] + RenderMembers(t, c.members) + [EndType(k, t.name, PagePath(t))];
      assert calls[1..|calls| - 1] == RenderMembers(t, c.members);
    }
  }

  /** No type-level call names a kind whose configuration hides the type. */
  lemma RenderTypeRespectsKindConfig(t: TypeModel, c: Configuration)
    ensures forall call :: call in RenderType(t, c) ==>
              ShouldRender(t.access, KindConfig(c.types, DispatchKind(t)))
              && (call.BeginType? || call.EndType? ==> call.kind == DispatchKind(t) && call.typeName == t.name)
              && call.filePath == PagePath(t)
    ensures forall call :: call in RenderType(t, c) && call.RenderGroup? ==> GoodMemberCall(t, c.members, call)
  {
    var k := DispatchKind(t);
    if k in {Class, Struct, Interface} {
      WithMembersCalls(k, t, c);
      assert RenderType(t, c) == RenderWithMembers(k, t, c);
    } else if k == Enum {
      assert RenderType(t, c) == RenderEnum(t, c);
    } else {
      assert RenderType(t, c) == RenderDelegate(t, c);
    }
  }

  /** The calls of a class, struct or interface: its begin and end calls and its members' calls. */
  lemma WithMembersCalls(k: TypeKind, t: TypeModel, c: Configuration)
    ensures forall call :: call in RenderWithMembers(k, t, c) ==>
              ShouldRender(t.access, KindConfig(c.types, k))
              && (call.BeginType? || call.EndType? ==> call.kind == k && call.typeName == t.name)
              && call.filePath == PagePath(t)
              && (call.RenderGroup? ==> GoodMemberCall(t, c.members, call))
  {
    if ShouldRender(t.access, KindConfig(c.types, k)) {
      var members := RenderMembers(t, c.members);
      EmitCategoriesShape(t, CategoryOrder, c.members);
      var calls := [BeginType(k, t.name, PagePath(t))] + members + [EndType(k, t.name, PagePath(t))];
      assert RenderWithMembers(k, t, c) == calls;
      forall call | call in calls
        ensures (call.BeginType? || call.EndType? ==> call.kind == k && call.typeName == t.name)
        ensures call.filePath == PagePath(t)
        ensures call.RenderGroup? ==> GoodMemberCall(t, c.members, call)
      {
        if call != calls[0] && call != calls[|calls| - 1] {
          assert call in members;
        }
      }
    }
  }

  // ---------------------------------------------------------------------
  // The whole run

  /** Rendering a list of types is rendering each in turn. */
  lemma {:induction false} RenderAppend(a: seq<TypeModel>, b: seq<TypeModel>, c: Configuration)
    ensures Render(a + b, c) == Render(a, c) + Render(b, c)
  {
    if |a| > 0 {
      var ab := a + b;
      assert ab[0] == a[0] && ab[1..] == a[1..] + b;
      RenderAppend(a[1..], b, c);
      assert Render(ab, c) == RenderType(a[0], c) + Render(a[1..] + b, c);
      assert Render(a, c) == RenderType(a[0], c) + Render(a[1..], c);
      AppendAssociative(RenderType(a[0], c), Render(a[1..], c), Render(b, c));
    } else {
      assert a + b == b;
    }
  }

  /** Every call of a run belongs to the calls of one of its types, and every such call is made. */
  lemma {:induction false} RenderCallsFromTypes(types: seq<TypeModel>, c: Configuration)
    ensures forall call :: call in Render(types, c) <==> exists t :: t in types && call in RenderType(t, c)
  {
    if |types| > 0 {
      RenderCallsFromTypes(types[1..], c);
      forall t | t in types
        ensures t == types[0] || t in types[1..]
      {
        var k :| 0 <= k < |types| && types[k] == t;
        if k > 0 {
          assert types[1..][k - 1] == t;
        }
      }
    }
  }

  /**
   * Over a whole run: a begin call is made for a type exactly when its
   * kind's configuration shows it; no group call is empty or for a
   * disabled group.
   */
  lemma RenderRespectsConfig(types: seq<TypeModel>, c: Configuration)
    ensures forall t :: t in types ==>
              (BeginType(DispatchKind(t), t.name, PagePath(t)) in Render(types, c)
               <== ShouldRender(t.access, KindConfig(c.types, DispatchKind(t))))
    ensures forall call :: call in Render(types, c) && call.BeginType? ==>
              exists t :: t in types && call.kind == DispatchKind(t) && call.typeName == t.name
                          && ShouldRender(t.access, KindConfig(c.types, DispatchKind(t)))
    ensures forall call :: call in Render(types, c) && call.RenderGroup? ==>
              |call.members| > 0 && Enabled(CategoryConfig(c.members, call.category), call.group)
  {
    ShownTypesBegin(types, c);
    forall call | call in Render(types, c)
      ensures call.BeginType? ==>
                exists t :: t in types && call.kind == DispatchKind(t) && call.typeName == t.name
                            && ShouldRender(t.access, KindConfig(c.types, DispatchKind(t)))
      ensures call.RenderGroup? ==> |call.members| > 0 && Enabled(CategoryConfig(c.members, call.category), call.group)
    {
      CallOfRun(types, c, call);
    }
  }

  /** Every type its kind's configuration shows gets its begin call. */
  lemma ShownTypesBegin(types: seq<TypeModel>, c: Configuration)
    ensures forall t :: t in types && ShouldRender(t.access, KindConfig(c.types, DispatchKind(t))) ==>
              BeginType(DispatchKind(t), t.name, PagePath(t)) in Render(types, c)
  {
    RenderCallsFromTypes(types, c);
    forall t | t in types && ShouldRender(t.access, KindConfig(c.types, DispatchKind(t)))
      ensures BeginType(DispatchKind(t), t.name, PagePath(t)) in Render(types, c)
    {
      assert RenderType(t, c)[0] in RenderType(t, c);
    }
  }

  /** One call of a run: a begin call names a shown type; a group call is non-empty and enabled. */
  lemma CallOfRun(types: seq<TypeModel>, c: Configuration, call: Call)
    requires call in Render(types, c)
    ensures call.BeginType? ==>
              exists t :: t in types && call.kind == DispatchKind(t) && call.typeName == t.name
                          && ShouldRender(t.access, KindConfig(c.types, DispatchKind(t)))
    ensures call.RenderGroup? ==> |call.members| > 0 && Enabled(CategoryConfig(c.members, call.category), call.group)
  {
    RenderCallsFromTypes(types, c);
    var t :| t in types && call in RenderType(t, c);
    RenderTypeRespectsKindConfig(t, c);
  }

  // ---------------------------------------------------------------------
  // Paths

  /** The directory of a dotted full name is its namespace's page directory. */
  lemma GetDirectoryOfFullName(namespace: string, name: string)
    requires '.' !in name
    ensures GetDirectory(namespace + "." + name) == MakeFilePath(namespace)
  {
    assert namespace + "." + name == namespace + ['.'] + name;
    SplitAround(namespace, name, '.');
    SplitWithoutSeparator(name, '.');
    var names := Split(namespace + "." + name, '.');
    assert names[..|names| - 1] == Split(namespace, '.');
  }

  /**
   * The page of a type in a namespace `N1.….Nk` is `N1/…/Nk/Name.md`: its
   * path segments are the namespace segments followed by the file name;
   * a type in the empty namespace lands at `Name.md`.
   */
  lemma PagePathSegments(t: TypeModel)
    requires '/' !in t.namespace && '/' !in t.name
    ensures |t.namespace| > 0 ==> Split(PagePath(t), '/') == Split(t.namespace, '.') + [t.name + ".md"]
    ensures |t.namespace| == 0 ==> PagePath(t) == t.name + ".md"
  {
    if |t.namespace| > 0 {
      var dir := MakeFilePath(t.namespace);
      var file := t.name + ".md";
      assert PagePath(t) == dir + ['/'] + file;
      SplitAround(dir, file, '/');
      SplitReplaced(t.namespace, '.', '/');
      assert '/' !in file by {
        assert forall i :: 0 <= i < |file| ==> file[i] == if i < |t.name| then t.name[i] else ".md"[i - |t.name|];
      }
      SplitWithoutSeparator(file, '/');
    }
  }

  // ---------------------------------------------------------------------
  // Renderability and grouping

  /**
   * A member that is both internal and protected is decided by the
   * internal-protected flag alone, by `shouldRender` and by the grouping,
   * and is never placed in the internal or the protected group.
   */
  lemma InternalProtectedClassifiedOnce(m: Member, c: AccessConfig)
    requires m.access.isInternal && m.access.isProtected
    ensures Classify(m.access) == InternalProtected
    ensures ShouldRender(m.access, c) <==> Enabled(c, InternalProtected)
    ensures HasRenderableModels([m], c) <==> Enabled(c, InternalProtected)
    ensures forall ms :: m in ms ==> m in InGroup(ms, InternalProtected) && m !in InGroup(ms, Internal) && m !in InGroup(ms, Protected)
  {
    assert [m][0] == m;
  }

  /**
   * A member whose group is enabled passes `shouldRender`, unless it
   * carries no flag at all (the grouping's private fallback).
   */
  lemma GroupedMemberRenderable(a: Access, c: AccessConfig)
    requires Classify(a) != Private || a.isPrivate
    requires Enabled(c, Classify(a))
    ensures ShouldRender(a, c)
  {
  }

  /**
   * The accessibility string handed to the renderer identifies the group:
   * no two groups share a label, so a call's group is its label.
   */
  lemma LabelIdentifiesGroup(g: Group, h: Group)
    ensures Label(g) == Label(h) <==> g == h
  {
  }

  /**
   * The accessibility flags that name exactly one group: one of public,
   * protected, internal, private alone, or internal together with protected.
   */
  predicate SingleGroupFlags(a: Access)
  {
    || (a.isPublic && !a.isProtected && !a.isInternal && !a.isPrivate)
    || (!a.isPublic && a.isProtected && !a.isInternal && !a.isPrivate)
    || (!a.isPublic && !a.isProtected && a.isInternal && !a.isPrivate)
    || (!a.isPublic && !a.isProtected && !a.isInternal && a.isPrivate)
    || (!a.isPublic && a.isProtected && a.isInternal && !a.isPrivate)
  }

  /** For such flags the grouping and `shouldRender` agree, in both directions. */
  lemma GroupingAgreesWithShouldRender(a: Access, c: AccessConfig)
    requires SingleGroupFlags(a)
    ensures ShouldRender(a, c) <==> Enabled(c, Classify(a))
  {
    if ShouldRender(a, c) && !(a.isInternal && a.isProtected) {
      var g :| g != InternalProtected && HasFlag(a, g) && Enabled(c, g);
      assert g == Classify(a);
    }
  }

  /** No group call is made when every group is disabled or empty. */
  lemma {:induction false} EmitGroupsNone(cat: Category, gs: seq<Group>, b: Buckets, c: AccessConfig, path: string)
    requires forall g :: g in gs ==> !Enabled(c, g) || |b.Get(g)| == 0
    ensures EmitGroups(cat, gs, b, c, path) == []
  {
    if |gs| > 0 {
      assert gs[0] in gs;
      EmitGroupsNone(cat, gs[1..], b, c, path);
    }
  }

  /** Sorting a single member leaves it alone. */
  lemma SortOne(m: Member)
    ensures SortMembers([m]) == [m]
  {
    var sorted := SortMembers([m]);
    assert |sorted| == |multiset(sorted)| == 1;
    assert sorted[0] in multiset([m]);
  }

  /** Sorting two members with different names puts the smaller name first. */
  lemma SortTwo(a: Member, b: Member)
    requires LexLe(a.name, b.name) && a.name != b.name
    ensures SortMembers([b, a]) == [a, b]
  {
    var sorted := SortMembers([b, a]);
    assert |sorted| == |multiset(sorted)| == 2;
    assert sorted[0] in multiset([b, a]) && sorted[1] in multiset([b, a]);
    if sorted[0] == b {
      LexLeAntisymmetric(a.name, b.name);
    }
  }

  /**
   * The grouping and `shouldRender` disagree on members with several
   * flags: a member both public and internal is renderable under a
   * configuration showing only public members, yet it is grouped as
   * internal, so the category is visited and no group call follows.
   */
  lemma RenderableWithoutGroupCall()
    ensures var m := Member("M", Access(true, false, true, false), None);
            var c := AccessConfig(true, false, false, false, false);
            HasRenderableModels([m], c) && RenderOrganizedMembers(Properties, [m], c, "A/T.md") == []
  {
    var m := Member("M", Access(true, false, true, false), None);
    LoneMemberWithoutGroupCall(m, AccessConfig(true, false, false, false, false), Properties, "A/T.md");
  }

  /**
   * The same happens to a member both protected and private under a
   * configuration showing only private members: `shouldRender` accepts it
   * through its private flag, the grouping puts it in the protected group,
   * and that group is hidden.
   */
  lemma ProtectedPrivateWithoutGroupCall()
    ensures var m := Member("M", Access(false, true, false, true), None);
            var c := AccessConfig(false, false, false, false, true);
            && Classify(m.access) == Protected
            && HasRenderableModels([m], c) && RenderOrganizedMembers(Fields, [m], c, "A/T.md") == []
  {
    var m := Member("M", Access(false, true, false, true), None);
    LoneMemberWithoutGroupCall(m, AccessConfig(false, false, false, false, true), Fields, "A/T.md");
  }

  /**
   * A lone member that passes `shouldRender` while its group is hidden
   * makes its category visited, yet no group call is made for it.
   */
  lemma LoneMemberWithoutGroupCall(m: Member, c: AccessConfig, cat: Category, path: string)
    requires ShouldRender(m.access, c) && !Enabled(c, Classify(m.access))
    ensures HasRenderableModels([m], c) && RenderOrganizedMembers(cat, [m], c, path) == []
  {
    assert ShouldRender([m][0].access, c);
    SortOne(m);
    var b := Organize([m], NoBuckets);
    forall g
      ensures !Enabled(c, g) || |b.Get(g)| == 0
    {
      OrganizedBuckets([m], g);
      assert InGroup([m], g) == if g == Classify(m.access) then [m] else [];
    }
    EmitGroupsNone(cat, EmissionOrder, b, c, path);
  }

  /** An enabled group holding a member gets a call, carrying the group of the sorted members. */
  lemma GroupCallOf(cat: Category, ms: seq<Member>, c: AccessConfig, path: string, m: Member) returns (call: Call)
    requires m in ms && Enabled(c, Classify(m.access))
    ensures call in RenderOrganizedMembers(cat, ms, c, path)
    ensures call == RenderGroup(cat, Classify(m.access), InGroup(SortMembers(ms), Classify(m.access)), path)
  {
    var g := Classify(m.access);
    OrganizedCallsCover(cat, ms, c, path, g);
    OrganizedCallsCarryGroups(cat, ms, c, path);
    call :| call in RenderOrganizedMembers(cat, ms, c, path) && IsGroupCall(call, g);
  }

  /**
   * A member carrying no flag fails `shouldRender` but falls in the
   * private group: once another member makes its category renderable, it
   * is rendered with the private members.
   */
  lemma UnrenderableMemberRendered()
    ensures var p := Member("P", Access(true, false, false, false), None);
            var f := Member("F", Access(false, false, false, false), None);
            var c := AccessConfig(true, false, false, false, true);
            && !ShouldRender(f.access, c)
            && HasRenderableModels([p, f], c)
            && RenderGroup(Fields, Private, [f], "A/T.md") in RenderOrganizedMembers(Fields, [p, f], c, "A/T.md")
  {
    var p := Member("P", Access(true, false, false, false), None);
    var f := Member("F", Access(false, false, false, false), None);
    var c := AccessConfig(true, false, false, false, true);
    var ms := [p, f];
    assert ShouldRender(ms[0].access, c);
    assert f in ms && Classify(f.access) == Private;
    var call := GroupCallOf(Fields, ms, c, "A/T.md", f);
    SortTwo(f, p);
    assert [f, p][1..] == [p];
    assert InGroup([f, p], Private) == [f];
    assert call == RenderGroup(Fields, Private, [f], "A/T.md");
  }

  // ---------------------------------------------------------------------
  // A worked run

  const PropertyP := Member("P", Access(true, false, false, false), None)
  const FieldF := Member("F", Access(false, false, false, true), None)
  const Foo := TypeModel("Foo", "A", Access(true, false, false, false), true, false, false, false,
                         Some([PropertyP]), None, None, Some([FieldF]))
  const Bar := TypeModel("Bar", "A", Access(false, false, false, true), true, false, false, false,
                         None, None, None, None)
  const PublicOnly := AccessConfig(true, false, false, false, false)
  const NothingShown := AccessConfig(false, false, false, false, false)
  const ExampleConfig := Configuration(
    TypeConfig(PublicOnly, PublicOnly, PublicOnly, PublicOnly, PublicOnly),
    MemberConfig(PublicOnly, NothingShown, NothingShown, NothingShown))

  lemma FooPage()
    ensures PagePath(Foo) == "A/Foo.md"
  {
    assert MakeFilePath("A") == "A";
  }

  /** No category calls are made when no category is visited. */
  lemma {:induction false} EmitCategoriesNone(t: TypeModel, cats: seq<Category>, c: MemberConfig)
    requires forall cat :: cat in cats ==> !CategoryShown(t, cat, c)
    ensures EmitCategories(t, cats, c) == []
  {
    if |cats| > 0 {
      assert cats[0] in cats;
      EmitCategoriesNone(t, cats[1..], c);
    }
  }

  /** Organising `Foo`'s properties puts `P` in the public bucket and nothing anywhere else. */
  lemma FooBuckets()
    ensures forall g :: Organize(SortMembers([PropertyP]), NoBuckets).Get(g) == if g == Public then [PropertyP] else []
  {
    SortOne(PropertyP);
    forall g
      ensures Organize(SortMembers([PropertyP]), NoBuckets).Get(g) == if g == Public then [PropertyP] else []
    {
      OrganizedBuckets([PropertyP], g);
      assert InGroup([PropertyP], g) == (if g == Public then [PropertyP] else []) + InGroup([], g);
    }
  }

  /** `Foo`'s property section holds `P` alone, for the public group. */
  lemma FooProperties()
    ensures RenderOrganizedMembers(Properties, [PropertyP], PublicOnly, "A/Foo.md")
            == [RenderGroup(Properties, Public, [PropertyP], "A/Foo.md")]
  {
    var b := Organize(SortMembers([PropertyP]), NoBuckets);
    FooBuckets();
    assert b.Get(Public) == [PropertyP];
    OrganizedIsEmit(Properties, [PropertyP], PublicOnly, "A/Foo.md");
    PublicOnlyEmission(Properties, b, "A/Foo.md");
  }

  /** Under a public-only configuration only the public bucket can yield a call. */
  lemma PublicOnlyEmission(cat: Category, b: Buckets, path: string)
    ensures EmitGroups(cat, EmissionOrder, b, PublicOnly, path) == GroupCall(cat, Public, b.Get(Public), PublicOnly, path)
  {
    var others := EmissionOrder[1..];
    assert others == [Protected, Internal, InternalProtected, Private];
    EmitGroupsNone(cat, others, b, PublicOnly, path);
    EmitGroupsFirst(cat, EmissionOrder, b, PublicOnly, path);
  }

  /** The organised rendering is the emission over the buckets of the sorted members. */
  lemma OrganizedIsEmit(cat: Category, ms: seq<Member>, c: AccessConfig, path: string)
    ensures RenderOrganizedMembers(cat, ms, c, path)
            == EmitGroups(cat, EmissionOrder, Organize(SortMembers(ms), NoBuckets), c, path)
  {
  }

  /** The calls for a non-empty list of groups start with the first group's call. */
  lemma EmitGroupsFirst(cat: Category, gs: seq<Group>, b: Buckets, c: AccessConfig, path: string)
    requires |gs| > 0
    ensures EmitGroups(cat, gs, b, c, path) == GroupCall(cat, gs[0], b.Get(gs[0]), c, path) + EmitGroups(cat, gs[1..], b, c, path)
  {
  }

  /** `Foo` has no method or event collection and no shown field. */
  lemma FooOtherCategories()
    ensures EmitCategories(Foo, [Methods, Events, Fields], ExampleConfig.members) == []
  {
    var c := ExampleConfig.members;
    assert !ShouldRender([FieldF][0].access, c.forField);
    EmitCategoriesNone(Foo, [Methods, Events, Fields], c);
  }

  /** Only the public property section of `Foo` is rendered. */
  lemma FooMembers()
    ensures RenderMembers(Foo, ExampleConfig.members) == [RenderGroup(Properties, Public, [PropertyP], "A/Foo.md")]
  {
    var c := ExampleConfig.members;
    FooPage();
    FooProperties();
    FooOtherCategories();
    assert ShouldRender([PropertyP][0].access, c.forProperty);
    assert CategoryOrder[1..] == [Methods, Events, Fields];
  }

  /** `Foo` is a public class: its page gets the begin call, its members' calls and the end call. */
  lemma FooRun()
    ensures RenderType(Foo, ExampleConfig)
            == [BeginType(Class, "Foo", "A/Foo.md"),
                RenderGroup(Properties, Public, [PropertyP], "A/Foo.md"),
                EndType(Class, "Foo", "A/Foo.md")]
  {
    FooPage();
    FooMembers();
    assert DispatchKind(Foo) == Class;
  }

  /**
   * A run over class `Foo` in namespace `A` (public property `P`, private
   * field `F`) and a private class `Bar` beside it, with only public
   * classes and public properties shown: `Foo`'s page gets exactly one
   * property section, for the public group and holding `P`, and no field
   * section; `Bar` causes no call at all.
   */
  lemma WorkedRun()
    ensures Render([Foo, Bar], ExampleConfig)
            == [BeginType(Class, "Foo", "A/Foo.md"),
                RenderGroup(Properties, Public, [PropertyP], "A/Foo.md"),
                EndType(Class, "Foo", "A/Foo.md")]
  {
    FooRun();
    assert RenderType(Bar, ExampleConfig) == [];
    assert [Foo, Bar][1..] == [Bar];
    assert Render([Bar], ExampleConfig) == [] + Render([], ExampleConfig);
  }
}
