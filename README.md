# Modular WPF Template: the bootstrap helpers, modelled in Dafny

This project models the bootstrap code of a WPF application template built on the
.NET generic host:

- **Assembly scanning** (`Services`, services.dfy). `AddAssemblyTypes` and its
  overloads (`AddTransientsFromAssembly`, `AddSingletonsFromAssembly`,
  `AddScopedsFromAssembly` and their generic forms) collect the concrete types of
  some assemblies. The result can be narrowed to the types assignable to a service
  type and passed through a caller's filter. Each remaining type is appended to the
  service collection as one descriptor. The module also covers `Remove` and `Clone`
  of a service collection.
- **File providers** (`FileProviders`, file_providers.dfy). One embedded and one
  physical provider are registered, each under its own type and under
  `IFileProvider`. A composite provider is registered through a factory that builds
  once and then returns its cached copy.
- **Paths** (`Paths`, paths.dfy). `MapPath` removes "~/" from a virtual path before
  resolving it. `IsPathWellFormed` returns a verdict and a message for each
  `PathKind`.
- **Resources** (`Resources`, resources.dfy). Resource names are qualified with the
  assembly name. Looking up a resource that is missing fails with
  `FileNotFoundException`.
- **Startup checks** (`Startup`, startup.dfy). The splash window runs every startup
  check in turn. It shows each status the check publishes, the replayed ones
  included. After each check that does not throw it writes "Performing startup
  checks"; a check that throws ends the run.

Reflection is given as data:

- a type is a name plus an "is abstract" flag;
- an assembly is a name plus its types, in declaration order;
- `Type.IsAssignableFrom` is a relation passed in as a parameter.

Two classes track registrations:

- `ServiceCollection` holds the descriptor list that the extension methods append
  to.
- `CompositeFactory` holds the variable that the composite factory's closure
  captures.

Instances are Dafny objects, so "the same instance" is reference equality.

Two other classes carry the startup state:

- `StartupCheck` holds the replay buffer of published statuses and one subscription
  slot.
- `StartupWindow` holds the `Status` text, plus ghost records of every value written
  to it and of every check it ran.

## Model

| member | source | states |
|---|---|---|
| Services.Where | Extensions/ServiceCollectionExtensions.cs:412 | The filtered list is no longer than its input and holds exactly the input's elements that satisfy the predicate. |
| Services.WhereAppend | Extensions/ServiceCollectionExtensions.cs:412 | Filtering a concatenation gives the filtered first part followed by the filtered second part. |
| Services.WhereSingleton | Extensions/ServiceCollectionExtensions.cs:412 | A single element is kept iff it satisfies the predicate. Together with `WhereAppend` this fixes `Where` as the filter that keeps order and duplicates. |
| Services.WhereCount | Extensions/ServiceCollectionExtensions.cs:412 | An element satisfying the predicate occurs in the result as often as in the input; any other element not at all. |
| Services.ConcreteTypesOf | Extensions/ServiceCollectionExtensions.cs:412 | An assembly contributes exactly its non-abstract types. |
| Services.ConcreteTypesOfSplit | Extensions/ServiceCollectionExtensions.cs:412 | Declaration order is kept: the concrete types of two runs of declarations are the first run's, then the second's. |
| Services.ConcreteTypesOfSingle | Extensions/ServiceCollectionExtensions.cs:412 | A single declared type is kept iff it is concrete. |
| Services.ConcreteTypesOfCount | Extensions/ServiceCollectionExtensions.cs:412 | A concrete type appears as often as `GetTypes` reports it; an abstract one never. |
| Services.ConcreteTypes | Extensions/ServiceCollectionExtensions.cs:409-416 | The candidate list holds no abstract type. |
| Services.ConcreteTypesMembers | Extensions/ServiceCollectionExtensions.cs:409-416 | A type is a candidate iff it is concrete and declared by one of the assemblies. |
| Services.ConcreteTypesAppend | Extensions/ServiceCollectionExtensions.cs:409-416 | Scanning two runs of assemblies gives the first run's types followed by the second's; assembly order fixes type order. |
| Services.ResolveTypeList | Extensions/ServiceCollectionExtensions.cs:406-423 | The list built by one `AddRange` per assembly is every assembly's concrete types in assembly order. The caller's filter, when present, is applied once, to the whole list. |
| Services.Describe | Extensions/ServiceCollectionExtensions.cs:425-431 | One descriptor per type, in list order, each made by the factory from the type at the same position. |
| Services.AddDescribed | Extensions/ServiceCollectionExtensions.cs:425-431 | The existing descriptors are kept, followed by one factory-made descriptor per type, in list order. |
| Services.AddAssemblyTypesByFactory | Extensions/ServiceCollectionExtensions.cs:400-435 | The existing descriptors are kept, followed by one factory-made descriptor per filtered candidate, in order. The same collection is returned. |
| Services.AddAssemblyTypes | Extensions/ServiceCollectionExtensions.cs:344-389 | Appends the registrations for the given lifetime, service type and filter, and returns the same collection. |
| Services.EffectiveFilter | Extensions/ServiceCollectionExtensions.cs:352-370 | With no service type the caller's filter is passed on unchanged. With one, a filter is always passed on: it keeps the types assignable to the service type, in order, and then applies the caller's filter when there is one. |
| Services.DescriptorFactory | Extensions/ServiceCollectionExtensions.cs:372-382 | Each descriptor has the type as implementation and the given lifetime. Its service type is the given service type, or the type itself when none is given. |
| Services.DescriptorsFollowRegisteredTypes | Extensions/ServiceCollectionExtensions.cs:372-382 | Each registered type gets one descriptor, in order. Its implementation is the type and its lifetime is the one passed in. Its service type is the given service type, or the type itself when none is given. |
| Services.WithoutFiltersAllConcreteTypes | Extensions/ServiceCollectionExtensions.cs:344-389 | With no service type and no filter, a type is registered iff it is concrete and declared by one of the assemblies. |
| Services.ServiceTypeSelectsAssignable | Extensions/ServiceCollectionExtensions.cs:353-370 | With a service type and no caller filter, a type is registered iff it is concrete, declared by an assembly, and assignable to the service type. |
| Services.CallerFilterRunsAfterTypeFilter | Extensions/ServiceCollectionExtensions.cs:359-364 | With both a service type and a caller filter, the caller's filter receives the assignability-filtered list. When that filter only selects, every registered type is concrete and assignable. |
| Services.InvokeFilter | Extensions/ServiceCollectionExtensions.cs:359-364 | The merged lambda reads the variable `filter` when it is invoked, not when it is built. A list only ever comes back from a caller's delegate, either the one invoked or the one the variable holds. |
| Services.AsWrittenMergedFilterNeverReturns | Extensions/ServiceCollectionExtensions.cs:363 | After the assignment the variable holds the merged lambda itself, so invoking it never yields a type list at any nesting depth. |
| Services.CapturedCopyComposes | Extensions/ServiceCollectionExtensions.cs:359-364 | Had the lambda read a copy of the caller's delegate taken before the assignment, it would return the type filter followed by the caller's filter, which is what `EffectiveFilter` uses. |
| Services.AddAssemblyTypesOf | Extensions/ServiceCollectionExtensions.cs:318-329 | The generic form registers under `typeof(ServiceType)`: the same appended descriptors as `AddAssemblyTypes` with that service type. |
| Services.AddAssemblyTypesFromAssembly | Extensions/ServiceCollectionExtensions.cs:287-306 | A missing assembly is replaced by the executing assembly, which is scanned as a one-element array. |
| Services.AddAssemblyTypesOfFromAssembly | Extensions/ServiceCollectionExtensions.cs:258-269 | The generic single-assembly form registers under `typeof(ServiceType)`. |
| Services.AddTransientsFromAssembly | Extensions/ServiceCollectionExtensions.cs:130-141 | The single-assembly registration with the Transient lifetime. |
| Services.AddTransientsFromAssemblyOf | Extensions/ServiceCollectionExtensions.cs:104-113 | The generic Transient form, under `typeof(ServiceType)`. |
| Services.AddSingletonsFromAssembly | Extensions/ServiceCollectionExtensions.cs:181-192 | The single-assembly registration with the Singleton lifetime. |
| Services.AddSingletonsFromAssemblyOf | Extensions/ServiceCollectionExtensions.cs:155-164 | The generic Singleton form, under `typeof(ServiceType)`. |
| Services.AddScopedsFromAssembly | Extensions/ServiceCollectionExtensions.cs:232-243 | The single-assembly registration with the Scoped lifetime. |
| Services.AddScopedsFromAssemblyOf | Extensions/ServiceCollectionExtensions.cs:206-215 | The generic Scoped form, under `typeof(ServiceType)`. |
| Services.ServiceCollection.RemoveItem | Extensions/ServiceCollectionExtensions.cs:64 | `ICollection.Remove` leaves the list unchanged when the argument is absent. Otherwise it removes exactly one element (see `RemoveFirstEqualAt` for which one). |
| Services.RemoveFirstEqualAt | Extensions/ServiceCollectionExtensions.cs:64 | When the first element equal to the argument is at position k, removal gives the list without position k, the rest in order. |
| Services.RemoveFirst | Extensions/ServiceCollectionExtensions.cs:58-65 | Removal by service type removes at most one descriptor and adds none. |
| Services.FirstOrDefault | Extensions/ServiceCollectionExtensions.cs:58 | Reports no match iff no descriptor has the service type. Otherwise it reports the position of the first one that has it. |
| Services.RemoveFirstNoMatch | Extensions/ServiceCollectionExtensions.cs:58-65 | With no descriptor for the type, removal changes nothing. |
| Services.RemoveFirstAt | Extensions/ServiceCollectionExtensions.cs:58-65 | When the first match is at position k, removal by type and removal of that descriptor by equality both give the list without position k. |
| Services.Remove | Extensions/ServiceCollectionExtensions.cs:44-69 | The collection loses its first descriptor for the service type, if any, and nothing else. The same collection is returned. |
| Services.Clone | Extensions/ServiceCollectionExtensions.cs:76-90 | A new collection holds the same descriptors in the same order. |
| FileProviders.InstancesOf | Extensions/FileServiceCollectionExtensions.cs:83-84 | `GetServices<T>` over instance registrations yields at most one instance per descriptor, in registration order. |
| FileProviders.InstancesOfMembers | Extensions/FileServiceCollectionExtensions.cs:83-84 | An object is found for a type iff some descriptor registers it as an instance under that type. |
| FileProviders.Snapshot | Extensions/FileServiceCollectionExtensions.cs:83-87 | The composite's provider list is every physical-provider instance, then every embedded-provider instance. |
| FileProviders.SnapshotMembers | Extensions/FileServiceCollectionExtensions.cs:83-87 | The composite holds an object iff the container registers it as an instance of the physical or of the embedded provider type. |
| FileProviders.InstancesOfAppend | Extensions/FileServiceCollectionExtensions.cs:83-84 | `GetServices<T>` over more registrations returns the earlier instances, then the later ones. |
| FileProviders.CompositeFactory.constructor | Extensions/FileServiceCollectionExtensions.cs:74 | The captured provider variable starts empty. |
| FileProviders.CompositeFactory.Invoke | Extensions/FileServiceCollectionExtensions.cs:77-91 | The first call builds a new composite over the physical providers followed by the embedded ones. Every call returns the cached composite and stores it. |
| FileProviders.ResolveTwice | Extensions/FileServiceCollectionExtensions.cs:74-91 | Two resolutions through one factory return the same instance. It is built from the first container, even when the second holds more providers. |
| FileProviders.AddDefaultEmbeddedFileProvider | Extensions/FileServiceCollectionExtensions.cs:39-47 | One new embedded provider for the entry assembly, registered as a singleton under its own type and under `IFileProvider`. |
| FileProviders.AddDefaultPhysicalFileProvider | Extensions/FileServiceCollectionExtensions.cs:55-63 | One new physical provider at the application base path, registered as a singleton under its own type and under `IFileProvider`. |
| FileProviders.AddCompositeFileProvider | Extensions/FileServiceCollectionExtensions.cs:72-98 | A new factory with an empty cache, registered for the composite type and for `IFileProvider`. Both registrations share that one factory. |
| FileProviders.AddDefaultFileProviders | Extensions/FileServiceCollectionExtensions.cs:21-31 | Appends the embedded pair, then the physical pair, then the composite factory pair. |
| FileProviders.InstancePairInstances | Extensions/FileServiceCollectionExtensions.cs:43-44 | A concrete provider type finds only the instance of its own pair. |
| FileProviders.FactoryPairInstances | Extensions/FileServiceCollectionExtensions.cs:94-95 | The factory registrations contribute no instance to `GetServices`. |
| FileProviders.DefaultRegistrationsOwnInstances | Extensions/FileServiceCollectionExtensions.cs:21-31 | Among the six default registrations, each concrete provider type finds exactly its own default instance. The factory pair contributes nothing. |
| FileProviders.DefaultRegistrationsInstances | Extensions/FileServiceCollectionExtensions.cs:21-31 | After the default registrations, a concrete provider type sees its earlier instances, then its default instance. |
| FileProviders.DefaultRegistrationsSnapshot | Extensions/FileServiceCollectionExtensions.cs:83-87 | After the default registrations, the composite lists the earlier physical providers and then the default one. The embedded providers come after those, the default one last, although it was registered first. |
| Paths.TrimStartSlash | Helpers/PathHelper.cs:71 | `TrimStart('/')` returns a suffix with no leading slash, and everything it removed was slashes. |
| Paths.RemoveTildeSlash | Helpers/PathHelper.cs:71 | `Replace("~/", "")` removes only whole "~/" pairs, so the result is never longer and the length drops by an even number. |
| Paths.RemoveTildeSlashSinglePass | Helpers/PathHelper.cs:71 | The replacement does not rescan its own output: "~~//" becomes "~/", which still holds "~/". |
| Paths.RemoveTildeSlashUnchanged | Helpers/PathHelper.cs:71 | `Replace("~/", "")` leaves a string unchanged iff it holds no "~/". |
| Paths.RemoveTildeSlashInterior | Helpers/PathHelper.cs:71 | Every "~/" is dropped, not only a leading one: after any stretch without "~/", even one ending in '~' as in "~~/bin". The scan resumes after the pair it dropped. |
| Paths.ToRelative | Helpers/PathHelper.cs:66-72 | A path that does not start with '~' is unchanged. One that does comes back without a leading slash. |
| Paths.MapPath | Helpers/PathHelper.cs:56-76 | The path, after the virtual-path step, is resolved against the given base path, or against the application base path when none is given. |
| Paths.MapPathDefaultsToAppBase | Helpers/PathHelper.cs:61-65 | A missing base path resolves as the application base path. |
| Paths.MapPathPassesPlainPath | Helpers/PathHelper.cs:68-75 | A path that does not start with '~' reaches `Path.GetFullPath` unchanged, with the chosen base. |
| Paths.VirtualPathWithoutSlashKept | Helpers/PathHelper.cs:68-72 | A path that starts with '~' but holds no "~/" keeps its tilde. |
| Paths.IsPathWellFormed | Helpers/PathHelper.cs:88-143 | The flag is true iff the message is "Valid". A null path, or one with an invalid character, is "Invalid path". Otherwise the flag says whether the kind accepts the path, a rejection carries that kind's own message, and `RelativeOrAbsolute` accepts every valid path. |
| Resources.ReplaceChar | Helpers/ResourceHelper.cs:29-31 | A one-character `Replace` keeps the length and changes exactly the occurrences of the old character. |
| Resources.NamespaceSafe | Helpers/ResourceHelper.cs:29-31 | The three replacements keep the length and map each character on its own: space to '_', either slash to '.'. No space or slash is left. |
| Resources.NamespaceSafeIdempotent | Helpers/ResourceHelper.cs:29-31 | Making a name namespace-safe twice gives the same result as once. |
| Resources.NamespaceSafeUnchanged | Helpers/ResourceHelper.cs:29-31 | A name is left unchanged iff it holds no space and no slash. |
| Resources.FormatResourceName | Helpers/ResourceHelper.cs:21-35 | The result is the given or default assembly's simple name, then '.', then the namespace-safe resource name. |
| Resources.GetEmbeddedResource | Helpers/ResourceHelper.cs:44-65 | Fails iff the given or default assembly has no resource of that exact name. The failure is a `FileNotFoundException` naming the resource and the assembly's full name. Otherwise the result is the resource's text. |
| Startup.StartupCheck.constructor | Services/Startup/BaseStartupCheck.cs:22-26 | A new check has an empty replay buffer and no subscriber. |
| Startup.StartupCheck.Publish | Services/Startup/BaseStartupCheck.cs:24 | A published status is buffered and written to the live subscriber's `Status`, if there is one. |
| Startup.StartupCheck.Subscribe | Views/StartupWindow.xaml.cs:31 | Subscribing replays the whole buffer to the window in order, then keeps the window attached. |
| Startup.StartupCheck.Dispose | Views/StartupWindow.xaml.cs:31-34 | Leaving the `using` block detaches the window and leaves the buffer as it is. |
| Startup.StartupCheck.DoCheck | Services/Startup/BaseStartupCheck.cs:31 | The check's statuses are published in order. It reports whether it threw. |
| Startup.StartupWindow.constructor | Views/StartupWindow.xaml.cs:18-25 | The window keeps the list of checks it was given. |
| Startup.StartupWindow.SetStatus | Views/StartupWindow.xaml.cs:14 | `Status` becomes the value, and the value is recorded as written. |
| Startup.StartupWindow.RunOne | Views/StartupWindow.xaml.cs:31-34 | Over one check, the window is shown the check's buffer and then what the check publishes. Afterwards the check is detached and its buffer has grown by its statuses. |
| Startup.StartupWindow.Step | Views/StartupWindow.xaml.cs:31-36 | One iteration writes exactly the trace's next step, and the reset only when the check did not throw. The check it ran ends detached, with its script added to its buffer; the other checks are untouched. |
| Startup.StartupWindow.RunChecks | Views/StartupWindow.xaml.cs:29-37 | The loop runs exactly `RunCount` checks, in list order. It completes iff no check throws, writes exactly the trace to `Status`, and leaves each check that ran with its script added to its buffer. |
| Startup.StartupWindow.PerformStartupCheck | Views/StartupWindow.xaml.cs:27-38 | The checks run in list order until one throws. `Status` receives exactly the trace: per check its replayed buffer, its statuses and, unless it threw, the reset. The method completes iff no check throws, and after a complete non-empty run `Status` is "Performing startup checks". Every check ends detached; each one that ran has its script added to its buffer, and the others keep theirs. |
| Startup.RunCount | Views/StartupWindow.xaml.cs:29-37 | The number of checks run is at most the list length, and at least one when the list is non-empty. |
| Startup.RunCountStopsAt | Views/StartupWindow.xaml.cs:29-37 | When the check at position i is the first to throw, exactly i + 1 checks run. |
| Startup.RunCountAll | Views/StartupWindow.xaml.cs:29-37 | When no check throws, every check runs. |
| Startup.TraceFirstStep | Views/StartupWindow.xaml.cs:29-37 | The trace from a check on is its buffer, then its statuses, then, unless it throws, the reset text and the trace of the rest. |
| Startup.TraceEndsPerforming | Views/StartupWindow.xaml.cs:36 | With no throwing check among at least one, the last status written is the reset text. |

## Left out

- `BuildFromFactory` (lines 17-36 of Extensions/ServiceCollectionExtensions.cs) is not part of this model. It picks a provider factory registered in the container, which would need the container's resolution rules.
- `Remove<T>` is modelled through `Services.Remove` with `typeof(T)` as the service type. Likewise, each generic overload is modelled by its non-generic counterpart with `Some(serviceType)`.
- Reflection is data. `Assembly.GetTypes`, `Type.IsAbstract` and `Type.IsAssignableFrom` are fields of the data or parameters. `Assembly.GetExecutingAssembly()` and the entry assembly are parameters.
- The caller's filter is a total function from lists to lists. A filter that throws, or that is lazy and enumerated twice, is not modelled.
- Services.AddAssemblyTypes: uses the merged filter that the comment on line 362 intends, not the self-invoking closure written on line 363 (see Findings).
- FileProviders.InstancesOf: `GetServices<T>` is modelled only for instance registrations. A type or factory registration for `PhysicalFileProvider` or `EmbeddedFileProvider` would also yield a provider, but this file registers those two types only by instance. Building a provider, resolving type and factory registrations, and singleton lifetimes are not modelled.
- Services.ClrType: a type is identified by its name and its abstract flag, so two distinct types with the same name are merged. `Remove` compares service types by that identity, whereas the source compares `Type` objects.
- `Assembly.GetTypes()` can throw `ReflectionTypeLoadException` when a type of the assembly cannot be loaded. The model's assemblies always report their types, so that failure is not modelled.
- A null `assemblies` array, or a null element in it, throws in the source when the scan enumerates it. The model's assembly lists are non-null sequences of assemblies.
- A null `resourceName` throws `NullReferenceException` at the `Replace` calls of `FormatResourceName`, and `ArgumentNullException` from `GetManifestResourceStream` in `GetEmbeddedResource`. The model's resource names are non-null strings.
- FileProviders.CompositeFactory.Invoke: the check-then-set on the captured variable is modelled sequentially. Two threads that both find it empty would each build a composite; concurrency is not modelled.
- `PathHelper.AppBasePath` and `PathHelper.ExecutingDirectory` read the process's base directory and the calling assembly's code base. They are left out, and the base path is a parameter of `MapPath`.
- `Path.GetFullPath`, `Path.GetInvalidPathChars`, `Path.IsPathFullyQualified` and `Uri.TryCreate`/`Uri.IsUnc` are parameters. Their platform-specific rules are not modelled.
- `MapPath` with a null path throws `NullReferenceException` at `StartsWith`. The model's path is a non-null string. `StartsWith("~")` is modelled as an ordinal first-character test, not a culture-sensitive comparison.
- `GetEmbeddedResourceAsync` only wraps the synchronous call in a completed task, so it is not modelled separately. Stream reading is modelled as the manifest map holding each resource's text. `getDefaultAssembly` (the calling assembly) is a parameter.
- Startup.StartupWindow.PerformStartupCheck: requires the checks to be distinct instances. This holds for the application's registration, where the startup checks are transients and each resolves to a new instance. A list holding one instance twice is not covered.
- Startup.StartupCheck: the Rx `ReplaySubject` is modelled with one subscriber slot, because the window is its only observer. `OnError` and `OnCompleted` are not modelled. An exception from `DoCheck` is modelled as a flag returned after the check's statuses were published. The window's `Status` begins as "" where the source begins with null. Change notification to the bound view is not modelled.
- `DoCheck` bodies belong to the concrete checks of the application. Each is given as data: the statuses it publishes and whether it throws.
- App.xaml.cs (host start-up and window wiring), the view and configuration registration extensions, the database context and all WPF plumbing are not part of this model.

## Findings

| source | as written | input that shows it | evidently intended | confidence | as-written member | corrected member |
|---|---|---|---|---|---|---|
| Extensions/ServiceCollectionExtensions.cs:363 | `filter = typeList => filter.Invoke(typeFilter.Invoke(typeList))` captures the variable `filter`, which the assignment then points at the new closure. Invoking it on line 422 applies the type filter and calls itself again without end, so the stack overflows. `InvokeFilter` models the variable as a cell that the closure reads when invoked. | Any call of `AddAssemblyTypes` with a non-null service type and a non-null caller filter. | The type filter first, then the caller's original filter, as the comment on line 362 says. | not executed | Services.AsWrittenMergedFilterNeverReturns | Services.CallerFilterRunsAfterTypeFilter |
