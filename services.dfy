/**
 * The type-scanning registration engine of Extensions/ServiceCollectionExtensions.cs:
 * scan assemblies for concrete types, filter them, turn each survivor into a service
 * descriptor and append it to a service collection; plus `Remove` and `Clone`.
 *
 * Reflection is given data: an assembly is the list of types `GetTypes` reports, each
 * type says whether it is abstract, and `Type.IsAssignableFrom` is a relation passed in.
 */
module Services {
  import opened Wrappers

  /** A reflected type: its name and whether it is abstract (abstract class or interface). */
  datatype ClrType = ClrType(name: string, isAbstract: bool)

  /** A loaded assembly with the types it defines, in the order `GetTypes` reports them. */
  datatype Assembly = Assembly(name: string, types: seq<ClrType>)

  datatype ServiceLifetime = Singleton | Scoped | Transient

  /** How a descriptor yields its service: a type to construct, a ready instance, or a factory delegate. */
  datatype Implementation =
    | ImplementationType(implementationType: ClrType)
    | ImplementationInstance(instance: object)
    | ImplementationFactory(factory: object)

  datatype ServiceDescriptor = ServiceDescriptor(serviceType: ClrType, implementation: Implementation, lifetime: ServiceLifetime)

  /** A `Func<IEnumerable<Type>, IEnumerable<Type>>`: a caller's rewrite of the candidate list. */
  type TypeFilter = seq<ClrType> -> seq<ClrType>

  /** `Type.IsAssignableFrom` as given data: `assignable(s, t)` holds when a `t` may be used as an `s`. */
  type Assignability = (ClrType, ClrType) -> bool

  /** The mutable `IServiceCollection`: an ordered list of descriptors. */
  class ServiceCollection {
    var descriptors: seq<ServiceDescriptor>

    constructor ()
      ensures descriptors == []
    {
      descriptors := [];
    }

    /** `ICollection.Add`: append at the end. */
    method Add(d: ServiceDescriptor)
      modifies this
      ensures descriptors == old(descriptors) + [d]
    {
      descriptors := descriptors + [d];
    }

    /** `ICollection.Remove`: drop the first element equal to `d`, if any. */
    method RemoveItem(d: ServiceDescriptor)
      modifies this
      ensures descriptors == RemoveFirstEqual(old(descriptors), d)
    {
      descriptors := RemoveFirstEqual(descriptors, d);
    }
  }

  // ---------------------------------------------------------------------------
  // Sequence helpers

  /** `Enumerable.Where`: the elements satisfying `p`, in their original order. */
  function Where(s: seq<ClrType>, p: ClrType -> bool): (r: seq<ClrType>)
    ensures |r| <= |s|
    ensures forall x :: x in r <==> x in s && p(x)
  {
    if s == [] then [] else (if p(s[0]) then [s[0]] else []) + Where(s[1..], p)
  }

  /** Filtering a concatenation filters each part and keeps the parts in order. */
  lemma {:induction false} WhereAppend(s: seq<ClrType>, t: seq<ClrType>, p: ClrType -> bool)
    ensures Where(s + t, p) == Where(s, p) + Where(t, p)
  {
    if s == [] {
      assert s + t == t;
    } else {
      assert (s + t)[1..] == s[1..] + t;
      WhereAppend(s[1..], t, p);
    }
  }

  /** A single element is kept exactly when it satisfies the predicate. */
  lemma WhereSingleton(x: ClrType, p: ClrType -> bool)
    ensures Where([x], p) == if p(x) then [x] else []
  {
    assert [x][1..] == [];
  }

  /** An element satisfying the predicate is kept as often as it occurs; any other, never. */
  lemma {:induction false} WhereCount(s: seq<ClrType>, p: ClrType -> bool, x: ClrType)
    ensures multiset(Where(s, p))[x] == if p(x) then multiset(s)[x] else 0
  {
    if s != [] {
      WhereCount(s[1..], p, x);
      assert s == [s[0]] + s[1..];
    }
  }

  /** Extending a prefix by one element. */
  lemma PrefixGrows(s: seq<ServiceDescriptor>, i: nat)
    requires i < |s|
    ensures s[..i + 1] == s[..i] + [s[i]]
  {
  }

  /** The prefix as long as the list is the list. */
  lemma PrefixWhole(s: seq<ServiceDescriptor>)
    ensures s[..|s|] == s
  {
  }

  /** The list with its first element equal to `d` removed (unchanged when there is none). */
  function RemoveFirstEqual(ds: seq<ServiceDescriptor>, d: ServiceDescriptor): (r: seq<ServiceDescriptor>)
    ensures d !in ds ==> r == ds
    ensures d in ds ==> |r| == |ds| - 1
  {
    if ds == [] then []
    else if ds[0] == d then ds[1..]
    else [ds[0]] + RemoveFirstEqual(ds[1..], d)
  }

  /** With the first element equal to `d` at `k`, exactly that element goes; the rest keep their order. */
  lemma {:induction false} RemoveFirstEqualAt(ds: seq<ServiceDescriptor>, d: ServiceDescriptor, k: nat)
    requires k < |ds| && ds[k] == d
    requires forall j :: 0 <= j < k ==> ds[j] != d
    ensures RemoveFirstEqual(ds, d) == ds[..k] + ds[k + 1..]
  {
    if k > 0 {
      RemoveFirstEqualAt(ds[1..], d, k - 1);
      assert ds[1..][..k - 1] == ds[1..k];
      assert ds[1..][k..] == ds[k + 1..];
      assert ds[..k] == [ds[0]] + ds[1..k];
    }
  }

  // ---------------------------------------------------------------------------
  // Scanning: the candidate list

  /** `!t.IsAbstract`. */
  predicate IsConcrete(t: ClrType)
  {
    !t.isAbstract
  }

  /** The types of one assembly that are not abstract, in declaration order. */
  function ConcreteTypesOf(a: Assembly): (r: seq<ClrType>)
    ensures forall t :: t in r <==> t in a.types && !t.isAbstract
  {
    Where(a.types, IsConcrete)
  }

  /**
   * Declaration order is kept: the concrete types of a run of declarations followed by
   * another are those of the first run, then those of the second.
   */
  lemma ConcreteTypesOfSplit(name: string, ts: seq<ClrType>, us: seq<ClrType>)
    ensures ConcreteTypesOf(Assembly(name, ts + us))
            == ConcreteTypesOf(Assembly(name, ts)) + ConcreteTypesOf(Assembly(name, us))
  {
    WhereAppend(ts, us, IsConcrete);
  }

  /** A single declared type is kept exactly when it is concrete. */
  lemma ConcreteTypesOfSingle(name: string, t: ClrType)
    ensures ConcreteTypesOf(Assembly(name, [t])) == if t.isAbstract then [] else [t]
  {
    WhereSingleton(t, IsConcrete);
  }

  /** A concrete type occurs as often as the assembly reports it; an abstract one not at all. */
  lemma ConcreteTypesOfCount(a: Assembly, t: ClrType)
    ensures multiset(ConcreteTypesOf(a))[t] == if t.isAbstract then 0 else multiset(a.types)[t]
  {
    WhereCount(a.types, IsConcrete, t);
  }

  /** Every assembly's concrete types, assembly after assembly in array order. */
  function ConcreteTypes(assemblies: seq<Assembly>): (r: seq<ClrType>)
    ensures forall i :: 0 <= i < |r| ==> !r[i].isAbstract
  {
    if assemblies == [] then [] else ConcreteTypesOf(assemblies[0]) + ConcreteTypes(assemblies[1..])
  }

  /** A type is a candidate iff it is concrete and one of the assemblies declares it. */
  lemma {:induction false} ConcreteTypesMembers(assemblies: seq<Assembly>, t: ClrType)
    ensures t in ConcreteTypes(assemblies) <==> !t.isAbstract && exists a :: a in assemblies && t in a.types
  {
    if assemblies != [] {
      ConcreteTypesMembers(assemblies[1..], t);
      assert forall a :: a in assemblies <==> a == assemblies[0] || a in assemblies[1..];
    }
  }

  /** Scanning two runs of assemblies one after the other scans their concatenation. */
  lemma {:induction false} ConcreteTypesAppend(a: seq<Assembly>, b: seq<Assembly>)
    ensures ConcreteTypes(a + b) == ConcreteTypes(a) + ConcreteTypes(b)
  {
    if a == [] {
      assert a + b == b;
    } else {
      assert (a + b)[1..] == a[1..] + b;
      ConcreteTypesAppend(a[1..], b);
    }
  }

  /** The list after the optional caller filter, when there is one. */
  function ApplyFilter(filter: Option<TypeFilter>, typeList: seq<ClrType>): seq<ClrType>
  {
    match filter
    case None => typeList
    case Some(f) => f(typeList)
  }

  /**
   * Build the candidate list with one `AddRange` per assembly, then run the filter over
   * it. The result is the filter applied to every assembly's concrete
   * types in assembly order.
   */
  method ResolveTypeList(assemblies: seq<Assembly>, filter: Option<TypeFilter>) returns (typeList: seq<ClrType>)
    ensures typeList == ApplyFilter(filter, ConcreteTypes(assemblies))
  {
    typeList := [];
    for i := 0 to |assemblies|
      invariant typeList == ConcreteTypes(assemblies[..i])
    {
      ConcreteTypesAppend(assemblies[..i], [assemblies[i]]);
      assert assemblies[..i + 1] == assemblies[..i] + [assemblies[i]];
      typeList := typeList + ConcreteTypesOf(assemblies[i]);
    }
    assert assemblies[..|assemblies|] == assemblies;
    if filter.Some? {
      typeList := filter.value(typeList);
    }
  }

  // ---------------------------------------------------------------------------
  // Descriptors

  /** One descriptor per type, made by the factory, in list order. */
  function Describe(typeList: seq<ClrType>, descriptorFactory: ClrType -> ServiceDescriptor): (r: seq<ServiceDescriptor>)
    ensures |r| == |typeList|
    ensures forall i :: 0 <= i < |typeList| ==> r[i] == descriptorFactory(typeList[i])
  {
    if typeList == [] then [] else [descriptorFactory(typeList[0])] + Describe(typeList[1..], descriptorFactory)
  }

  /** What the factory-taking `AddAssemblyTypes` appends. */
  function Registrations(assemblies: seq<Assembly>, descriptorFactory: ClrType -> ServiceDescriptor,
                         filter: Option<TypeFilter>): seq<ServiceDescriptor>
  {
    Describe(ApplyFilter(filter, ConcreteTypes(assemblies)), descriptorFactory)
  }

  /** One `services.Add` per type, in list order, each with the descriptor the factory makes for it. */
  method AddDescribed(services: ServiceCollection, typeList: seq<ClrType>,
                      descriptorFactory: ClrType -> ServiceDescriptor)
    modifies services
    ensures services.descriptors == old(services.descriptors) + Describe(typeList, descriptorFactory)
  {
    ghost var appended := Describe(typeList, descriptorFactory);
    for i := 0 to |typeList|
      invariant services.descriptors == old(services.descriptors) + appended[..i]
    {
      var d := descriptorFactory(typeList[i]);
      PrefixGrows(appended, i);
      services.Add(d);
    }
    PrefixWhole(appended);
  }

  /**
   * The factory-taking `AddAssemblyTypes`: append one descriptor per filtered candidate,
   * in order, after the existing entries, and return the same collection.
   */
  method AddAssemblyTypesByFactory(services: ServiceCollection, assemblies: seq<Assembly>,
                                   descriptorFactory: ClrType -> ServiceDescriptor,
                                   filter: Option<TypeFilter>) returns (r: ServiceCollection)
    modifies services
    ensures r == services
    ensures services.descriptors == old(services.descriptors) + Registrations(assemblies, descriptorFactory, filter)
  {
    var typeList := ResolveTypeList(assemblies, filter);
    AddDescribed(services, typeList, descriptorFactory);
    r := services;
  }

  // ---------------------------------------------------------------------------
  // Filter composition and descriptor factory

  /** The type filter: keep the types assignable to `serviceType`, in order. */
  function AssignableFilter(serviceType: ClrType, assignable: Assignability): TypeFilter
  {
    typeList => Where(typeList, t => assignable(serviceType, t))
  }

  /** Run `first`, then pass its output through `second`. */
  function Compose(first: TypeFilter, second: TypeFilter): TypeFilter
  {
    typeList => second(first(typeList))
  }

  /**
   * The filter `AddAssemblyTypes` hands on. With a service type and a caller filter this
   * is the composition its own comment describes (type filter, then caller filter); the
   * closure it actually writes does not compute it (see `InvokeFilter`).
   */
  function EffectiveFilter(serviceType: Option<ClrType>, filter: Option<TypeFilter>,
                           assignable: Assignability): (r: Option<TypeFilter>)
    ensures serviceType.None? ==> r == filter
    ensures serviceType.Some? ==>
              && r.Some?
              && forall typeList :: r.value(typeList)
                                    == ApplyFilter(filter, Where(typeList, t => assignable(serviceType.value, t)))
  {
    match serviceType
    case None => filter
    case Some(st) =>
      match filter
      case None => Some(AssignableFilter(st, assignable))
      case Some(f) => Some(Compose(AssignableFilter(st, assignable), f))
  }

  /** Register under the service type when given, else under the type itself. */
  function DescriptorFactory(serviceType: Option<ClrType>, lifetime: ServiceLifetime): (r: ClrType -> ServiceDescriptor)
    ensures forall t :: r(t).implementation == ImplementationType(t) && r(t).lifetime == lifetime
    ensures forall t :: r(t).serviceType == if serviceType.Some? then serviceType.value else t
  {
    t => ServiceDescriptor(serviceType.GetOr(t), ImplementationType(t), lifetime)
  }

  /** The implementation types `AddAssemblyTypes` registers, in order. */
  function RegisteredTypes(assemblies: seq<Assembly>, serviceType: Option<ClrType>,
                           filter: Option<TypeFilter>, assignable: Assignability): seq<ClrType>
  {
    ApplyFilter(EffectiveFilter(serviceType, filter, assignable), ConcreteTypes(assemblies))
  }

  /** What `AddAssemblyTypes` appends. */
  function AssemblyRegistrations(assemblies: seq<Assembly>, serviceType: Option<ClrType>,
                                 lifetime: ServiceLifetime, filter: Option<TypeFilter>,
                                 assignable: Assignability): seq<ServiceDescriptor>
  {
    Registrations(assemblies, DescriptorFactory(serviceType, lifetime), EffectiveFilter(serviceType, filter, assignable))
  }

  /**
   * One descriptor per registered type, in order; each is keyed by the service type
   * when one is given and by the implementation itself otherwise, and carries the
   * lifetime passed in.
   */
  lemma DescriptorsFollowRegisteredTypes(assemblies: seq<Assembly>, serviceType: Option<ClrType>,
                                         lifetime: ServiceLifetime, filter: Option<TypeFilter>,
                                         assignable: Assignability)
    ensures var types := RegisteredTypes(assemblies, serviceType, filter, assignable);
            var ds := AssemblyRegistrations(assemblies, serviceType, lifetime, filter, assignable);
            && |ds| == |types|
            && (forall i :: 0 <= i < |ds| ==>
                  && ds[i].implementation == ImplementationType(types[i])
                  && ds[i].lifetime == lifetime
                  && ds[i].serviceType == (if serviceType.Some? then serviceType.value else types[i]))
  {
  }

  /** No caller filter and no service type: every concrete type is registered, and only those. */
  lemma {:induction false} WithoutFiltersAllConcreteTypes(assemblies: seq<Assembly>, assignable: Assignability, t: ClrType)
    ensures t in RegisteredTypes(assemblies, None, None, assignable)
            <==> !t.isAbstract && exists a :: a in assemblies && t in a.types
  {
    ConcreteTypesMembers(assemblies, t);
  }

  /**
   * A service type and no caller filter: exactly the concrete types of the assemblies
   * that are assignable to the service type are registered.
   */
  lemma {:induction false} ServiceTypeSelectsAssignable(assemblies: seq<Assembly>, serviceType: ClrType,
                                                      assignable: Assignability, t: ClrType)
    ensures t in RegisteredTypes(assemblies, Some(serviceType), None, assignable)
            <==> && !t.isAbstract
                 && assignable(serviceType, t)
                 && exists a :: a in assemblies && t in a.types
  {
    ConcreteTypesMembers(assemblies, t);
  }

  /** A filter that only keeps some of the types it is given (drops, never invents). */
  ghost predicate Selects(f: TypeFilter)
  {
    forall typeList: seq<ClrType>, t: ClrType :: t in f(typeList) ==> t in typeList
  }

  /**
   * A service type and a caller filter: the caller's filter sees the assignability-filtered
   * list (the intended composition), so anything it drops stays unregistered, and when it
   * only selects, every registered type is concrete and assignable to the service type.
   */
  lemma CallerFilterRunsAfterTypeFilter(assemblies: seq<Assembly>, serviceType: ClrType,
                                        f: TypeFilter, assignable: Assignability)
    ensures RegisteredTypes(assemblies, Some(serviceType), Some(f), assignable)
            == f(Where(ConcreteTypes(assemblies), t => assignable(serviceType, t)))
    ensures Selects(f) ==>
            forall t :: t in RegisteredTypes(assemblies, Some(serviceType), Some(f), assignable) ==>
                          !t.isAbstract && assignable(serviceType, t)
  {
  }

  // ---------------------------------------------------------------------------
  // The merged filter as written

  /**
   * What the variable `filter` of `AddAssemblyTypes` holds: the caller's delegate, or the
   * merged lambda. The merged lambda does not hold the caller's delegate; it reads the
   * variable `filter` each time it is invoked, after the assignment has pointed that
   * variable at the merged lambda itself.
   */
  datatype FilterValue = CallerFilter(f: TypeFilter) | MergedFilter

  /**
   * Invoking the delegate `current` on `typeList` while the captured variable holds `cell`:
   * the merged lambda runs the type filter and then invokes whatever the variable holds at
   * that moment. `fuel` bounds the nesting depth; `None` means it ran out before a list
   * came back. A list only ever comes back from a caller's delegate.
   */
  function InvokeFilter(fuel: nat, current: FilterValue, cell: FilterValue, typeFilter: TypeFilter,
                        typeList: seq<ClrType>): (r: Option<seq<ClrType>>)
    ensures r.Some? ==> current.CallerFilter? || cell.CallerFilter?
    decreases fuel
  {
    if fuel == 0 then None
    else
      match current
      case CallerFilter(f) => Some(f(typeList))
      case MergedFilter => InvokeFilter(fuel - 1, cell, cell, typeFilter, typeFilter(typeList))
  }

  /**
   * As written, the variable holds the merged lambda when the type list is filtered, so
   * invoking it never returns a list, however deep the stack may grow.
   */
  lemma AsWrittenMergedFilterNeverReturns(fuel: nat, typeFilter: TypeFilter, typeList: seq<ClrType>)
    ensures InvokeFilter(fuel, MergedFilter, MergedFilter, typeFilter, typeList) == None
  {
  }

  /**
   * Had the lambda read a copy of the caller's delegate taken before the assignment, two
   * nested invocations would return the intended composition.
   */
  lemma CapturedCopyComposes(fuel: nat, serviceType: ClrType, f: TypeFilter, assignable: Assignability,
                             typeList: seq<ClrType>)
    requires fuel >= 2
    ensures InvokeFilter(fuel, MergedFilter, CallerFilter(f), AssignableFilter(serviceType, assignable), typeList)
            == Some(ApplyFilter(EffectiveFilter(Some(serviceType), Some(f), assignable), typeList))
  {
  }

  // ---------------------------------------------------------------------------
  // The AddAssemblyTypes overloads and the lifetime wrappers

  /** Register the assemblies' types under a lifetime, optionally under a service type. */
  method AddAssemblyTypes(services: ServiceCollection, assemblies: seq<Assembly>, serviceType: Option<ClrType>,
                          lifetime: ServiceLifetime, filter: Option<TypeFilter>,
                          assignable: Assignability) returns (r: ServiceCollection)
    modifies services
    ensures r == services
    ensures services.descriptors == old(services.descriptors)
                                    + AssemblyRegistrations(assemblies, serviceType, lifetime, filter, assignable)
  {
    var descriptorFactory := DescriptorFactory(serviceType, lifetime);
    var effective := EffectiveFilter(serviceType, filter, assignable);
    r := AddAssemblyTypesByFactory(services, assemblies, descriptorFactory, effective);
  }

  /** The generic overload over an assembly array; `typeof(ServiceType)` is the service type. */
  method AddAssemblyTypesOf(services: ServiceCollection, serviceType: ClrType, assemblies: seq<Assembly>,
                            lifetime: ServiceLifetime, filter: Option<TypeFilter>,
                            assignable: Assignability) returns (r: ServiceCollection)
    modifies services
    ensures r == services
    ensures services.descriptors == old(services.descriptors)
                                    + AssemblyRegistrations(assemblies, Some(serviceType), lifetime, filter, assignable)
  {
    r := AddAssemblyTypes(services, assemblies, Some(serviceType), lifetime, filter, assignable);
  }

  /**
   * One optional assembly; a missing one becomes the executing assembly, scanned as a
   * one-element array.
   */
  method AddAssemblyTypesFromAssembly(services: ServiceCollection, assembly: Option<Assembly>,
                                      executingAssembly: Assembly, serviceType: Option<ClrType>,
                                      lifetime: ServiceLifetime, filter: Option<TypeFilter>,
                                      assignable: Assignability) returns (r: ServiceCollection)
    modifies services
    ensures r == services
    ensures services.descriptors == old(services.descriptors)
              + AssemblyRegistrations([assembly.GetOr(executingAssembly)], serviceType, lifetime, filter, assignable)
  {
    var a := if assembly.None? then executingAssembly else assembly.value;
    r := AddAssemblyTypes(services, [a], serviceType, lifetime, filter, assignable);
  }

  /** The generic single-assembly overload. */
  method AddAssemblyTypesOfFromAssembly(services: ServiceCollection, serviceType: ClrType, assembly: Option<Assembly>,
                                        executingAssembly: Assembly, lifetime: ServiceLifetime,
                                        filter: Option<TypeFilter>, assignable: Assignability) returns (r: ServiceCollection)
    modifies services
    ensures r == services
    ensures services.descriptors == old(services.descriptors)
              + AssemblyRegistrations([assembly.GetOr(executingAssembly)], Some(serviceType), lifetime, filter, assignable)
  {
    r := AddAssemblyTypesFromAssembly(services, assembly, executingAssembly, Some(serviceType), lifetime, filter, assignable);
  }

  /** As `AddAssemblyTypesFromAssembly` with the Transient lifetime. */
  method AddTransientsFromAssembly(services: ServiceCollection, assembly: Option<Assembly>,
                                   executingAssembly: Assembly, serviceType: Option<ClrType>,
                                   filter: Option<TypeFilter>, assignable: Assignability) returns (r: ServiceCollection)
    modifies services
    ensures r == services
    ensures services.descriptors == old(services.descriptors)
              + AssemblyRegistrations([assembly.GetOr(executingAssembly)], serviceType, Transient, filter, assignable)
  {
    r := AddAssemblyTypesFromAssembly(services, assembly, executingAssembly, serviceType, Transient, filter, assignable);
  }

  /** The generic form of `AddTransientsFromAssembly`. */
  method AddTransientsFromAssemblyOf(services: ServiceCollection, serviceType: ClrType, assembly: Option<Assembly>,
                                     executingAssembly: Assembly, filter: Option<TypeFilter>,
                                     assignable: Assignability) returns (r: ServiceCollection)
    modifies services
    ensures r == services
    ensures services.descriptors == old(services.descriptors)
              + AssemblyRegistrations([assembly.GetOr(executingAssembly)], Some(serviceType), Transient, filter, assignable)
  {
    r := AddAssemblyTypesOfFromAssembly(services, serviceType, assembly, executingAssembly, Transient, filter, assignable);
  }

  /** As `AddAssemblyTypesFromAssembly` with the Singleton lifetime. */
  method AddSingletonsFromAssembly(services: ServiceCollection, assembly: Option<Assembly>,
                                   executingAssembly: Assembly, serviceType: Option<ClrType>,
                                   filter: Option<TypeFilter>, assignable: Assignability) returns (r: ServiceCollection)
    modifies services
    ensures r == services
    ensures services.descriptors == old(services.descriptors)
              + AssemblyRegistrations([assembly.GetOr(executingAssembly)], serviceType, Singleton, filter, assignable)
  {
    r := AddAssemblyTypesFromAssembly(services, assembly, executingAssembly, serviceType, Singleton, filter, assignable);
  }

  /** The generic form of `AddSingletonsFromAssembly`. */
  method AddSingletonsFromAssemblyOf(services: ServiceCollection, serviceType: ClrType, assembly: Option<Assembly>,
                                     executingAssembly: Assembly, filter: Option<TypeFilter>,
                                     assignable: Assignability) returns (r: ServiceCollection)
    modifies services
    ensures r == services
    ensures services.descriptors == old(services.descriptors)
              + AssemblyRegistrations([assembly.GetOr(executingAssembly)], Some(serviceType), Singleton, filter, assignable)
  {
    r := AddAssemblyTypesOfFromAssembly(services, serviceType, assembly, executingAssembly, Singleton, filter, assignable);
  }

  /** As `AddAssemblyTypesFromAssembly` with the Scoped lifetime. */
  method AddScopedsFromAssembly(services: ServiceCollection, assembly: Option<Assembly>,
                                executingAssembly: Assembly, serviceType: Option<ClrType>,
                                filter: Option<TypeFilter>, assignable: Assignability) returns (r: ServiceCollection)
    modifies services
    ensures r == services
    ensures services.descriptors == old(services.descriptors)
              + AssemblyRegistrations([assembly.GetOr(executingAssembly)], serviceType, Scoped, filter, assignable)
  {
    r := AddAssemblyTypesFromAssembly(services, assembly, executingAssembly, serviceType, Scoped, filter, assignable);
  }

  /** The generic form of `AddScopedsFromAssembly`. */
  method AddScopedsFromAssemblyOf(services: ServiceCollection, serviceType: ClrType, assembly: Option<Assembly>,
                                  executingAssembly: Assembly, filter: Option<TypeFilter>,
                                  assignable: Assignability) returns (r: ServiceCollection)
    modifies services
    ensures r == services
    ensures services.descriptors == old(services.descriptors)
              + AssemblyRegistrations([assembly.GetOr(executingAssembly)], Some(serviceType), Scoped, filter, assignable)
  {
    r := AddAssemblyTypesOfFromAssembly(services, serviceType, assembly, executingAssembly, Scoped, filter, assignable);
  }

  // ---------------------------------------------------------------------------
  // Remove and Clone

  /** The list with its first descriptor for `serviceType` removed (unchanged when there is none). */
  function RemoveFirst(ds: seq<ServiceDescriptor>, serviceType: ClrType): (r: seq<ServiceDescriptor>)
    ensures |ds| - 1 <= |r| <= |ds|
    ensures multiset(r) <= multiset(ds)
  {
    if ds == [] then []
    else
      assert ds == [ds[0]] + ds[1..];
      if ds[0].serviceType == serviceType then ds[1..]
      else [ds[0]] + RemoveFirst(ds[1..], serviceType)
  }

  /** With no descriptor for the type, removal leaves the list as it is. */
  lemma {:induction false} RemoveFirstNoMatch(ds: seq<ServiceDescriptor>, serviceType: ClrType)
    requires forall i :: 0 <= i < |ds| ==> ds[i].serviceType != serviceType
    ensures RemoveFirst(ds, serviceType) == ds
  {
    if ds != [] {
      RemoveFirstNoMatch(ds[1..], serviceType);
    }
  }

  /** With a first descriptor for the type at `k`, exactly that one is removed; the rest keep their order. */
  lemma {:induction false} RemoveFirstAt(ds: seq<ServiceDescriptor>, serviceType: ClrType, k: nat)
    requires k < |ds| && ds[k].serviceType == serviceType
    requires forall j :: 0 <= j < k ==> ds[j].serviceType != serviceType
    ensures RemoveFirst(ds, serviceType) == ds[..k] + ds[k + 1..]
    ensures RemoveFirstEqual(ds, ds[k]) == ds[..k] + ds[k + 1..]
  {
    if k > 0 {
      RemoveFirstAt(ds[1..], serviceType, k - 1);
      assert ds[1..][..k - 1] == ds[1..k];
      assert ds[1..][k..] == ds[k + 1..];
      assert ds[..k] == [ds[0]] + ds[1..k];
    }
    RemoveFirstEqualAt(ds, ds[k], k);
  }

  /**
   * `FirstOrDefault(descriptor => descriptor.ServiceType == serviceType)`, reporting the
   * position of the first match.
   */
  method FirstOrDefault(ds: seq<ServiceDescriptor>, serviceType: ClrType) returns (found: Option<nat>)
    ensures found.None? <==> forall i :: 0 <= i < |ds| ==> ds[i].serviceType != serviceType
    ensures found.Some? ==> && found.value < |ds|
                            && ds[found.value].serviceType == serviceType
                            && forall j :: 0 <= j < found.value ==> ds[j].serviceType != serviceType
  {
    var i := 0;
    while i < |ds|
      invariant 0 <= i <= |ds|
      invariant forall j :: 0 <= j < i ==> ds[j].serviceType != serviceType
    {
      if ds[i].serviceType == serviceType {
        return Some(i);
      }
      i := i + 1;
    }
    return None;
  }

  /** Remove the first descriptor registered for `serviceType`, if any. */
  method Remove(services: ServiceCollection, serviceType: ClrType) returns (r: ServiceCollection)
    modifies services
    ensures r == services
    ensures services.descriptors == RemoveFirst(old(services.descriptors), serviceType)
  {
    var found := FirstOrDefault(services.descriptors, serviceType);
    if found.Some? {
      RemoveFirstAt(services.descriptors, serviceType, found.value);
      services.RemoveItem(services.descriptors[found.value]);
    } else {
      RemoveFirstNoMatch(services.descriptors, serviceType);
    }
    r := services;
  }

  /** A new collection holding the same descriptors in the same order. */
  method Clone(services: ServiceCollection) returns (copy: ServiceCollection)
    ensures fresh(copy)
    ensures copy.descriptors == services.descriptors
  {
    copy := new ServiceCollection();
    for i := 0 to |services.descriptors|
      invariant copy.descriptors == services.descriptors[..i]
    {
      assert services.descriptors[..i + 1] == services.descriptors[..i] + [services.descriptors[i]];
      copy.Add(services.descriptors[i]);
    }
    assert services.descriptors[..|services.descriptors|] == services.descriptors;
  }
}
