/**
 * The file-provider registrations of Extensions/FileServiceCollectionExtensions.cs: the
 * default embedded and physical providers, each registered twice over one instance,
 * and the composite provider whose factory builds once and then serves its cached copy.
 *
 * A service provider handed to the factory is represented by the descriptors it was
 * built from; `GetServices<T>` over it yields the instances registered for `T`.
 */
module FileProviders {
  import opened Services

  const PhysicalFileProviderType := ClrType("PhysicalFileProvider", false)
  const EmbeddedFileProviderType := ClrType("EmbeddedFileProvider", false)
  const CompositeFileProviderType := ClrType("CompositeFileProvider", false)
  const IFileProviderType := ClrType("IFileProvider", true)

  /** A provider over a directory on disk. */
  class PhysicalFileProvider {
    const root: string

    constructor (root: string)
      ensures this.root == root
    {
      this.root := root;
    }
  }

  /** A provider over the resources embedded in an assembly. */
  class EmbeddedFileProvider {
    const assemblyName: string

    constructor (assemblyName: string)
      ensures this.assemblyName == assemblyName
    {
      this.assemblyName := assemblyName;
    }
  }

  /** A provider that consults a fixed list of providers in order. */
  class CompositeFileProvider {
    const providers: seq<object>

    constructor (providers: seq<object>)
      ensures this.providers == providers
    {
      this.providers := providers;
    }
  }

  /** Whether `d` registers the ready instance `o` under `serviceType`. */
  predicate RegistersInstance(d: ServiceDescriptor, serviceType: ClrType, o: object)
  {
    d.serviceType == serviceType && d.implementation == ImplementationInstance(o)
  }

  /**
   * The instances registered under `serviceType`, in registration order; at most one per
   * descriptor. Type and factory registrations contribute nothing.
   */
  function InstancesOf(descriptors: seq<ServiceDescriptor>, serviceType: ClrType): (r: seq<object>)
    ensures |r| <= |descriptors|
  {
    if descriptors == [] then []
    else
      var d := descriptors[0];
      (if d.serviceType == serviceType && d.implementation.ImplementationInstance?
       then [d.implementation.instance] else [])
      + InstancesOf(descriptors[1..], serviceType)
  }

  /** Registering more descriptors adds their instances after the earlier ones. */
  lemma {:induction false} InstancesOfAppend(a: seq<ServiceDescriptor>, b: seq<ServiceDescriptor>, serviceType: ClrType)
    ensures InstancesOf(a + b, serviceType) == InstancesOf(a, serviceType) + InstancesOf(b, serviceType)
  {
    if a == [] {
      assert a + b == b;
    } else {
      assert (a + b)[1..] == a[1..] + b;
      InstancesOfAppend(a[1..], b, serviceType);
    }
  }

  /**
   * An object is found for `serviceType` exactly when some descriptor registers it as an
   * instance under that type.
   */
  lemma {:induction false} InstancesOfMembers(descriptors: seq<ServiceDescriptor>, serviceType: ClrType, o: object)
    ensures o in InstancesOf(descriptors, serviceType)
            <==> exists i :: 0 <= i < |descriptors| && RegistersInstance(descriptors[i], serviceType, o)
  {
    if descriptors != [] {
      var rest := descriptors[1..];
      InstancesOfMembers(rest, serviceType, o);
      if exists i :: 0 <= i < |descriptors| && RegistersInstance(descriptors[i], serviceType, o) {
        var i :| 0 <= i < |descriptors| && RegistersInstance(descriptors[i], serviceType, o);
        if i > 0 {
          assert RegistersInstance(rest[i - 1], serviceType, o);
        }
      }
      if exists i :: 0 <= i < |rest| && RegistersInstance(rest[i], serviceType, o) {
        var i :| 0 <= i < |rest| && RegistersInstance(rest[i], serviceType, o);
        assert RegistersInstance(descriptors[i + 1], serviceType, o);
      }
    }
  }

  /**
   * The providers the composite is built over: every physical-provider instance in
   * registration order, then every embedded-provider instance.
   */
  function Snapshot(ctx: seq<ServiceDescriptor>): (r: seq<object>)
    ensures var physical := InstancesOf(ctx, PhysicalFileProviderType);
            && |physical| <= |r|
            && r[..|physical|] == physical
            && r[|physical|..] == InstancesOf(ctx, EmbeddedFileProviderType)
  {
    InstancesOf(ctx, PhysicalFileProviderType) + InstancesOf(ctx, EmbeddedFileProviderType)
  }

  /**
   * The composite holds an object exactly when the container registers it as an instance
   * of the physical or of the embedded provider type.
   */
  lemma SnapshotMembers(ctx: seq<ServiceDescriptor>, o: object)
    ensures o in Snapshot(ctx)
            <==> exists i :: 0 <= i < |ctx| && (RegistersInstance(ctx[i], PhysicalFileProviderType, o)
                                                || RegistersInstance(ctx[i], EmbeddedFileProviderType, o))
  {
    InstancesOfMembers(ctx, PhysicalFileProviderType, o);
    InstancesOfMembers(ctx, EmbeddedFileProviderType, o);
  }

  /**
   * The composite factory delegate together with the `fileProvider` variable it
   * captures: empty until the first call.
   */
  class CompositeFactory {
    var fileProvider: CompositeFileProvider?

    constructor ()
      ensures fileProvider == null
    {
      fileProvider := null;
    }

    /**
     * On the first call build a composite over the physical providers
     * followed by the embedded ones registered in `ctx`; on every call return the
     * cached composite.
     */
    method Invoke(ctx: seq<ServiceDescriptor>) returns (r: CompositeFileProvider)
      modifies this
      ensures old(fileProvider) == null ==> fresh(r) && r.providers == Snapshot(ctx)
      ensures old(fileProvider) != null ==> r == old(fileProvider)
      ensures fileProvider == r
    {
      if fileProvider == null {
        var physicalFileProviders := InstancesOf(ctx, PhysicalFileProviderType);
        var embeddedFileProviders := InstancesOf(ctx, EmbeddedFileProviderType);
        fileProvider := new CompositeFileProvider(physicalFileProviders + embeddedFileProviders);
      }
      r := fileProvider;
    }
  }

  /**
   * Two resolutions through one factory: the composite is built once, from the first
   * context, and the second resolution gets that same instance even when the
   * container it comes from holds more providers.
   */
  method ResolveTwice(factory: CompositeFactory, ctx: seq<ServiceDescriptor>, later: seq<ServiceDescriptor>)
    returns (first: CompositeFileProvider, second: CompositeFileProvider)
    requires factory.fileProvider == null
    modifies factory
    ensures fresh(first) && first.providers == Snapshot(ctx)
    ensures second == first
  {
    first := factory.Invoke(ctx);
    second := factory.Invoke(ctx + later);
  }

  /** `AddSingleton<T>(instance)` for the concrete type, then for `IFileProvider`, over one instance. */
  function InstancePair(concreteType: ClrType, provider: object): seq<ServiceDescriptor>
  {
    [ ServiceDescriptor(concreteType, ImplementationInstance(provider), Singleton),
      ServiceDescriptor(IFileProviderType, ImplementationInstance(provider), Singleton) ]
  }

  /** `AddSingleton<T>(factory)` for the composite type, then for `IFileProvider`, over one delegate. */
  function FactoryPair(factory: object): seq<ServiceDescriptor>
  {
    [ ServiceDescriptor(CompositeFileProviderType, ImplementationFactory(factory), Singleton),
      ServiceDescriptor(IFileProviderType, ImplementationFactory(factory), Singleton) ]
  }

  /** One new embedded provider, registered as itself and as `IFileProvider`. */
  method AddDefaultEmbeddedFileProvider(services: ServiceCollection, entryAssemblyName: string)
    returns (r: ServiceCollection, ghost provider: EmbeddedFileProvider)
    modifies services
    ensures r == services
    ensures fresh(provider) && provider.assemblyName == entryAssemblyName
    ensures services.descriptors == old(services.descriptors) + InstancePair(EmbeddedFileProviderType, provider)
  {
    var embeddedFileProvider := new EmbeddedFileProvider(entryAssemblyName);
    services.Add(ServiceDescriptor(EmbeddedFileProviderType, ImplementationInstance(embeddedFileProvider), Singleton));
    services.Add(ServiceDescriptor(IFileProviderType, ImplementationInstance(embeddedFileProvider), Singleton));
    r, provider := services, embeddedFileProvider;
  }

  /** One new physical provider at the application base path, registered twice. */
  method AddDefaultPhysicalFileProvider(services: ServiceCollection, appBasePath: string)
    returns (r: ServiceCollection, ghost provider: PhysicalFileProvider)
    modifies services
    ensures r == services
    ensures fresh(provider) && provider.root == appBasePath
    ensures services.descriptors == old(services.descriptors) + InstancePair(PhysicalFileProviderType, provider)
  {
    var physicalFileProvider := new PhysicalFileProvider(appBasePath);
    services.Add(ServiceDescriptor(PhysicalFileProviderType, ImplementationInstance(physicalFileProvider), Singleton));
    services.Add(ServiceDescriptor(IFileProviderType, ImplementationInstance(physicalFileProvider), Singleton));
    r, provider := services, physicalFileProvider;
  }

  /**
   * A new, empty cache and its factory, registered for the composite type
   * and for `IFileProvider`; both registrations share the one factory and so its cache.
   */
  method AddCompositeFileProvider(services: ServiceCollection)
    returns (r: ServiceCollection, ghost factory: CompositeFactory)
    modifies services
    ensures r == services
    ensures fresh(factory) && factory.fileProvider == null
    ensures services.descriptors == old(services.descriptors) + FactoryPair(factory)
  {
    var f := new CompositeFactory();
    services.Add(ServiceDescriptor(CompositeFileProviderType, ImplementationFactory(f), Singleton));
    services.Add(ServiceDescriptor(IFileProviderType, ImplementationFactory(f), Singleton));
    r, factory := services, f;
  }

  /** The six descriptors `AddDefaultFileProviders` appends: embedded, physical, composite. */
  function DefaultRegistrations(embedded: object, physical: object, factory: object): seq<ServiceDescriptor>
  {
    InstancePair(EmbeddedFileProviderType, embedded)
    + InstancePair(PhysicalFileProviderType, physical)
    + FactoryPair(factory)
  }

  /** The embedded provider, then the physical one, then the composite factory. */
  method AddDefaultFileProviders(services: ServiceCollection, entryAssemblyName: string, appBasePath: string)
    returns (r: ServiceCollection, ghost embedded: EmbeddedFileProvider, ghost physical: PhysicalFileProvider,
             ghost factory: CompositeFactory)
    modifies services
    ensures r == services
    ensures fresh(embedded) && fresh(physical) && fresh(factory) && factory.fileProvider == null
    ensures services.descriptors == old(services.descriptors) + DefaultRegistrations(embedded, physical, factory)
  {
    var s;
    s, embedded := AddDefaultEmbeddedFileProvider(services, entryAssemblyName);
    s, physical := AddDefaultPhysicalFileProvider(s, appBasePath);
    s, factory := AddCompositeFileProvider(s);
    r := services;
  }

  /** A concrete provider type finds the instance of its own pair only. */
  lemma InstancePairInstances(concreteType: ClrType, provider: object, serviceType: ClrType)
    requires serviceType != IFileProviderType
    ensures InstancesOf(InstancePair(concreteType, provider), serviceType)
            == if serviceType == concreteType then [provider] else []
  {
    var pair := InstancePair(concreteType, provider);
    assert pair[1..][1..] == [];
  }

  /** Factory registrations hold no instances. */
  lemma FactoryPairInstances(factory: object, serviceType: ClrType)
    ensures InstancesOf(FactoryPair(factory), serviceType) == []
  {
    var pair := FactoryPair(factory);
    assert pair[1..][1..] == [];
  }

  /** The six default descriptors hold, per concrete provider type, the default instance of that type. */
  lemma DefaultRegistrationsOwnInstances(embedded: object, physical: object, factory: object, serviceType: ClrType)
    requires serviceType != IFileProviderType
    ensures InstancesOf(DefaultRegistrations(embedded, physical, factory), serviceType)
            == (if serviceType == EmbeddedFileProviderType then [embedded] else [])
               + (if serviceType == PhysicalFileProviderType then [physical] else [])
  {
    var e, p, f := InstancePair(EmbeddedFileProviderType, embedded),
                   InstancePair(PhysicalFileProviderType, physical), FactoryPair(factory);
    assert DefaultRegistrations(embedded, physical, factory) == e + (p + f);
    InstancesOfAppend(e, p + f, serviceType);
    InstancesOfAppend(p, f, serviceType);
    FactoryPairInstances(factory, serviceType);
    InstancePairInstances(EmbeddedFileProviderType, embedded, serviceType);
    InstancePairInstances(PhysicalFileProviderType, physical, serviceType);
  }

  /**
   * After the default registrations, a concrete provider type sees its earlier instances
   * followed by the default instance of that type, if there is one.
   */
  lemma DefaultRegistrationsInstances(prior: seq<ServiceDescriptor>, embedded: object,
                                      physical: object, factory: object, serviceType: ClrType)
    requires serviceType != IFileProviderType
    ensures InstancesOf(prior + DefaultRegistrations(embedded, physical, factory), serviceType)
            == InstancesOf(prior, serviceType)
               + (if serviceType == EmbeddedFileProviderType then [embedded] else [])
               + (if serviceType == PhysicalFileProviderType then [physical] else [])
  {
    InstancesOfAppend(prior, DefaultRegistrations(embedded, physical, factory), serviceType);
    DefaultRegistrationsOwnInstances(embedded, physical, factory, serviceType);
  }

  /**
   * After the default registrations, the composite built from the container lists the
   * physical providers (the earlier ones, then the default one) before the embedded
   * ones, although the embedded provider was registered first.
   */
  lemma DefaultRegistrationsSnapshot(prior: seq<ServiceDescriptor>, embedded: EmbeddedFileProvider,
                                     physical: PhysicalFileProvider, factory: object)
    ensures Snapshot(prior + DefaultRegistrations(embedded, physical, factory))
            == InstancesOf(prior, PhysicalFileProviderType) + [physical]
               + InstancesOf(prior, EmbeddedFileProviderType) + [embedded]
  {
    var all := prior + DefaultRegistrations(embedded, physical, factory);
    DefaultRegistrationsInstances(prior, embedded, physical, factory, PhysicalFileProviderType);
    DefaultRegistrationsInstances(prior, embedded, physical, factory, EmbeddedFileProviderType);
    assert InstancesOf(all, PhysicalFileProviderType) == InstancesOf(prior, PhysicalFileProviderType) + [physical];
    assert InstancesOf(all, EmbeddedFileProviderType) == InstancesOf(prior, EmbeddedFileProviderType) + [embedded];
  }
}
