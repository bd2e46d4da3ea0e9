# everon-factory: the dependency container and the factory, in Dafny

This project models the two classes at the core of the Everon factory component.

- **The dependency container** (`src/Dependency/Container.php`):
  - It registers named service closures. It refuses a second registration and offers `propose` to register only if absent.
  - It resolves a name lazily: the closure runs on first use, and its result is memoized.
  - It injects services into objects through setters. Which setters to call comes from the dependency-marker traits the object's class and its ancestors use. A trait whose name ends in `Dependency\Setter\<Leaf>` asks for the service `<Leaf>` through `set<Leaf>`. The trait `Dependency\Setter\Factory` asks for the factory itself.
  - It keeps five collections: definitions, memoized services, per-class dependency lists, require-factory flags and injected flags.
- **The factory** (`src/Factory.php`):
  - It builds objects by class name, after checking that the class exists and can be instantiated.
  - It injects their dependencies through the container, and hands itself to objects whose class asks for it.
  - It caches named workers. A worker is built with the factory as its constructor argument and has `doWork` run once.

The model has two layers.

- **Value layer.** The container's state is a value (`ContainerModel.Store`) and every operation is a function on it (`ContainerModel`, `FactoryModel`). The lemmas state what the operations promise.
- **Imperative layer.** The same operations are written as classes that update their fields in place (`DependencyContainer.Container`, `DependencyContainer.Instance`, `ObjectFactory.Factory`, `ObjectFactory.FactoryStatics`). Each method is proved to leave the state exactly as the matching function says: `Model()` after the call equals the function applied to `old(Model())`.

How PHP's runtime behaviour is represented:

- **Reflection** (`class_exists`, `class_uses`, `class_parents`, `method_exists`, `instanceof FactoryAwareInterface`, `ReflectionClass::isInstantiable`/`isAbstract`) becomes an explicit class table, `Types.Runtime`. Operations receive it as a parameter.
- **Leading backslash.** Class lookups ignore a leading backslash, as PHP's do (`Types.ClassKey`). An object's class, as `get_class` reports it, is the name without it.
- **`array_merge` and `array_keys`.** The traits gathered over a class's ancestors are the keys of a string-keyed array. `array_merge` keeps the first position of a key that is already present, so no trait name appears twice (`Types.Insert`, `Types.ArrayMerge`).
- **Service closures** are opaque values. A closure's result depends only on the closure (`Base.Produce`). A ghost count of closure runs per name (`Store.invocations`) lets the model state "at most once".
- **Static properties.** The factory's container and its worker cache are static properties shared by every `Factory`. They are the fields of one `FactoryStatics` object that each factory refers to.
- **Exceptions** are `Err` values of `Base.Result`, one `Base.Error` variant per exception class. A PHP `TypeError` (`array_keys` given the `false` that `class_uses` returns for an unknown class) and a PHP `Error` (call of a missing method) also get variants.

Behaviour of the code that a reader of the interfaces might not expect. The model keeps it:

- `inject` flags a class as injected inside `injectSetterDependency` (`Container.php:78`). It does this after each setter call, under the receiver's runtime class, not under the class name `inject` was given. So a class whose only marker is the factory marker, or that has no marker, is never flagged.
- Dependency discovery deduplicates. `array_merge` of string-keyed arrays keeps one entry per trait name (`Container.php:97-103`).
- `injectDependencies` and `injectDependenciesOnce` do not wrap the container's errors (`Factory.php:46-59`). They reach the caller unchanged, although the `@throws FailedToInjectDependenciesException` docblocks in `tests/unit/Doubles/StubFactoryWorker.php` suggest a wrapping exception.
- `getWorkerByName` does not go through the container. It keeps its own cache, keyed by `<name>FactoryWorker` without the namespace. It builds the worker with `buildWithConstructorParameters`, calls `doWork` on it and caches it (`Factory.php:181-199`).

`Container.IsInjected` and `Container.IsFactoryRequired` are plain lookups of the two flag sets. The contracts of `Container.InjectOnce` and `Factory.InjectFactoryWhenRequired` state what they mean. `ContainerModel.Register`, `Resolve`, `Inject` and the other functions on `Store` define the operations. The rows below name the lemmas and methods whose contracts state their properties.

## Model

| member | source | states |
|---|---|---|
| Text.LastToken | src/Dependency/Container.php:152 | the leaf name is a suffix of the marker, holds no backslash, and is either the whole name or follows its last backslash |
| Text.LastTokenAfterSeparator | src/Dependency/Container.php:120-121 | whatever precedes the last backslash does not change the leaf name |
| Types.ClassKey | src/Factory.php:153-154 | an absolute name is looked up without its leading backslash, any other name as it is |
| Types.Insert | src/Dependency/Container.php:97-103 | setting names into a string-keyed array keeps every earlier key in place, adds exactly the missing names, and never duplicates a key |
| Types.CollectTraits | src/Dependency/Container.php:96-101 | the traits gathered over the ancestors are the class's own traits plus every ancestor's traits, without duplicates |
| Types.CollectTraitsSplit | src/Dependency/Container.php:93-101 | the gathered list is the ancestors' traits merged on their own, followed by the class's own traits that no ancestor uses |
| Types.TraitsOrder | src/Dependency/Container.php:93-103 | a class's trait names: every ancestor trait first, then the class's own remaining traits in their order; no name twice |
| ContainerModel.SetterMarkerShape | src/Dependency/Container.php:118-124 | every `<prefix>Dependency\Setter\<Leaf>` passes isSetterInjection, and its leaf is `<Leaf>` |
| ContainerModel.FactoryMarkerIsSetterMarker | src/Dependency/Container.php:131-134 | the factory marker also passes the setter-marker filter, with leaf `Factory`, so it reaches inject's loop |
| ContainerModel.SetterMarkers | src/Dependency/Container.php:104-106 | the filter keeps exactly the setter markers, in order, and keeps distinct names distinct |
| ContainerModel.SetterDependencies | src/Dependency/Container.php:93-106 | the discovered list holds distinct setter markers, exactly those used by the class or an ancestor |
| ContainerModel.DependencyOrder | src/Dependency/Container.php:93-106 | the discovered list is the ancestors' markers first, then the markers only the class itself uses |
| ContainerModel.EmptyIsValid | src/Dependency/Container.php:244-299 | the empty container satisfies the invariant (every memoized service has a definition; a closure ran exactly for the memoized names, once; cached lists are marker lists) |
| ContainerModel.RegisteredMeansDefined | src/Dependency/Container.php:236-239 | under the invariant a name is registered exactly when it has a definition |
| ContainerModel.RegisterContract | src/Dependency/Container.php:172-181 | register fails on a registered name without changing anything; otherwise it adds exactly that definition, no service for it, runs no closure, and keeps the invariant |
| ContainerModel.ProposeContract | src/Dependency/Container.php:186-193 | propose never fails, changes nothing for a registered name, is register otherwise, and leaves the name registered |
| ContainerModel.ProposeKeepsService | src/Dependency/Container.php:186-193 | proposing a registered name does not change what resolve returns for it |
| ContainerModel.ResolveContract | src/Dependency/Container.php:198-215 | resolve fails on a name without definition and changes nothing; otherwise it returns the memoized service, running the closure only when none is memoized, so each closure runs exactly once |
| ContainerModel.ResolveMemoized | src/Dependency/Container.php:204-206 | a second resolve of a name changes nothing and returns the same service |
| ContainerModel.ResolveServesMemoized | src/Dependency/Container.php:204-206 | after any later operations, resolve still returns a memoized service unchanged |
| ContainerModel.GrowsTransitive | src/Dependency/Container.php:172-239 | "no operation undoes anything" composes over sequences of operations |
| ContainerModel.ClassSetterDependenciesContract | src/Dependency/Container.php:87-111 | a cached list is returned as is; an unknown class fails with no change; a known class's list is discovered, cached and returned |
| ContainerModel.ClassSetterDependenciesOnce | src/Dependency/Container.php:89-91 | once computed, a class's list is never recomputed, whatever the class table says later |
| ContainerModel.InjectNonObject | src/Dependency/Container.php:141-143 | inject on a non-object fails before anything is touched |
| ContainerModel.SetterCheckedBeforeResolve | src/Dependency/Container.php:63-75 | a missing setter fails with its method name, service name and receiver class, before the service is resolved |
| ContainerModel.InjectSetterDependencyFacts | src/Dependency/Container.php:63-79 | one setter injection keeps the invariant, undoes nothing, hands the receiver the memoized service and flags only the receiver's runtime class |
| ContainerModel.InjectMarkersCompose | src/Dependency/Container.php:146-154 | markers are processed in order and a failure rolls nothing back |
| ContainerModel.InjectMarkersValid | src/Dependency/Container.php:146-154 | inject's loop keeps the invariant, undoes nothing and keeps the receiver's class |
| ContainerModel.InjectMarkersFactoryFlag | src/Dependency/Container.php:147-150 | only the given class name is flagged as requiring the factory; after success it is flagged iff it was before or a marker was the factory marker |
| ContainerModel.InjectMarkersInjectedFlag | src/Dependency/Container.php:65-78 | only the receiver's runtime class is flagged injected; after success it is flagged iff it was before or a marker was an ordinary setter marker |
| ContainerModel.FlagsGrow | src/Dependency/Container.php:146-154 | inject's loop never clears a flag |
| ContainerModel.InjectMarkersDelivers | src/Dependency/Container.php:146-154 | after success every ordinary marker's setter holds the container's memoized service named by the marker's leaf |
| ContainerModel.InjectValid | src/Dependency/Container.php:139-155 | inject keeps the invariant, undoes nothing, and a non-object stays a non-object |
| ContainerModel.InjectDelivers | src/Dependency/Container.php:139-155 | after a successful inject the receiver keeps its class and holds every ordinary dependency of the class name |
| ContainerModel.InjectFlagKeys | src/Dependency/Container.php:139-155 | inject flags no class but the receiver's runtime class as injected and no name but the given class name as requiring the factory; after success the runtime class is flagged when the list has an ordinary marker, and the given name when it has the factory marker |
| ContainerModel.InjectOnceContract | src/Dependency/Container.php:160-167 | injectOnce does nothing for a class name flagged injected and is inject otherwise |
| ContainerModel.InjectOnceIsPerClass | src/Dependency/Container.php:160-167 | once one instance of a class received a setter dependency, injectOnce for that class leaves any other instance untouched |
| ContainerModel.FactoryOnlyClassNeverInjected | src/Dependency/Container.php:147-150 | a class whose markers are all the factory marker, or that has none, is not flagged injected by inject |
| ContainerModel.NoFactoryMarkerNoFlag | src/Dependency/Container.php:147-149 | a class name without the factory marker is not flagged as requiring the factory |
| ContainerModel.FactoryMarkerRequiresFactory | src/Dependency/Container.php:147-148 | a successful inject of a class with the factory marker flags its name as requiring the factory |
| DependencyContainer.Instance.constructor | src/Factory.php:98 | a new object has its class and constructor arguments, no setter called, no factory, doWork not run |
| DependencyContainer.Instance.SetDependency | src/Dependency/Container.php:76 | the setter keeps the dependency under its name and changes nothing else |
| DependencyContainer.Instance.SetFactory | src/Factory.php:76 | setFactory keeps the factory and changes nothing else |
| DependencyContainer.Instance.DoWork | src/Factory.php:194 | doWork is counted and changes nothing else |
| DependencyContainer.Container.constructor | src/Dependency/Container.php:244-299 | a new container's five collections are empty |
| DependencyContainer.Container.IsRegistered | src/Dependency/Container.php:236-239 | under the invariant, registered means defined |
| DependencyContainer.Container.Register | src/Dependency/Container.php:172-181 | the container's new state and result are those of ContainerModel.Register; the invariant is kept |
| DependencyContainer.Container.Propose | src/Dependency/Container.php:186-193 | new state and result are those of ContainerModel.Propose |
| DependencyContainer.Container.Resolve | src/Dependency/Container.php:198-215 | new state and result are those of ContainerModel.Resolve |
| DependencyContainer.Container.GetClassSetterDependencies | src/Dependency/Container.php:87-111 | the loop over the ancestors computes ContainerModel.ClassSetterDependencies |
| DependencyContainer.Container.InjectSetterDependency | src/Dependency/Container.php:63-79 | container, receiver and result are those of ContainerModel.InjectSetterDependency; the receiver's factory and doWork count are untouched |
| DependencyContainer.Container.Inject | src/Dependency/Container.php:139-155 | the loop over the dependency list computes ContainerModel.Inject on the container and the receiver |
| DependencyContainer.Container.InjectOnce | src/Dependency/Container.php:160-167 | container, receiver and result are those of ContainerModel.InjectOnce |
| FactoryModel.GetFullClassName | src/Factory.php:151-158 | a name with a leading backslash comes back unchanged; any other name, the empty one included, is put under the namespace; either way the full name ends with the name and has the same leaf |
| FactoryModel.ClassExists | src/Factory.php:163-168 | passes exactly for a loadable class, else fails with UndefinedClass |
| FactoryModel.Instantiable | src/Factory.php:86-96 | passes exactly for a loadable, instantiable class; an unknown class fails as classExists does |
| FactoryModel.WorkerClassName | src/Factory.php:183 | a worker's class name is its name followed by `FactoryWorker`, nothing in between |
| FactoryModel.FactoryWhenRequired | src/Factory.php:69-78 | nothing happens for an unflagged class name; a flagged one hands the factory to a factory-aware object and fails with MissingFactoryAwareInterface otherwise |
| FactoryModel.AfterInjection | src/Factory.php:46-59 | the factory check runs only after a successful injection, and the injection's error passes through as it is |
| FactoryModel.InjectDependenciesUnwrapped | src/Factory.php:46-50 | a container error reaches the caller unchanged and no factory check runs |
| FactoryModel.InjectDependenciesValid | src/Factory.php:46-59 | injecting through the factory keeps the container's invariant and undoes nothing |
| FactoryModel.FactoryMarkerChecksAwareness | src/Factory.php:69-77 | with the factory marker, a successful injection hands over the factory exactly when the object is factory-aware and fails otherwise |
| FactoryModel.FlaggedCheck | src/Factory.php:69-77 | for a flagged class name the factory is handed over exactly to a factory-aware object, and any other object fails with MissingFactoryAwareInterface |
| FactoryModel.NoFactoryMarkerNoHandover | src/Factory.php:69-71 | without the factory marker (and no earlier flag), injectDependencies is exactly inject |
| FactoryModel.OnceStillChecksFactory | src/Factory.php:55-59 | injectDependenciesOnce skips the container for an injected class name but still runs the factory check, which a non-object fails |
| FactoryModel.BuildChecksFirst | src/Factory.php:83-100 | UndefinedClass, then InstanceIsAbstractClass or UnableToInstantiate, each leaving the container untouched, before the object is built and injected |
| FactoryModel.BuildDelivers | src/Factory.php:98-100 | a built object has the class's runtime name and every ordinary dependency of its class |
| FactoryModel.BuildFlagKeys | src/Factory.php:85-100 | a build may flag only the runtime class name as injected and only the full name as written as requiring the factory; a successful build flags the first when the class has an ordinary marker and the second when it has the factory marker |
| FactoryModel.NewWorkerNeedsDoWork | src/Factory.php:190-194 | a worker is only returned when its class exists, is instantiable and has doWork |
| ObjectFactory.FactoryStatics.constructor | src/Factory.php:27-32 | before any factory exists there is no container and no cached worker |
| ObjectFactory.Factory.constructor | src/Factory.php:37-41 | constructing a factory replaces the shared container and empties the shared worker cache |
| ObjectFactory.Factory.GetDependencyContainer | src/Factory.php:135-138 | returns the shared container |
| ObjectFactory.Factory.SetDependencyContainer | src/Factory.php:143-146 | replaces the shared container and keeps the worker cache |
| ObjectFactory.Factory.ClassExists | src/Factory.php:163-168 | passes exactly for a loadable class |
| ObjectFactory.Factory.InjectFactoryWhenRequired | src/Factory.php:69-78 | result and the object's factory are those of FactoryModel.FactoryWhenRequired |
| ObjectFactory.Factory.InjectDependencies | src/Factory.php:46-50 | container, object and result are those of FactoryModel.InjectDependencies |
| ObjectFactory.Factory.InjectDependenciesOnce | src/Factory.php:55-59 | container, object and result are those of FactoryModel.InjectDependenciesOnce |
| ObjectFactory.Factory.Build | src/Factory.php:83-130 | a fresh object with the given constructor arguments, or the error, as FactoryModel.Build says |
| ObjectFactory.Factory.BuildWithEmptyConstructor | src/Factory.php:83-103 | FactoryModel.Build with no constructor arguments |
| ObjectFactory.Factory.BuildWithConstructorParameters | src/Factory.php:108-130 | FactoryModel.Build with the given constructor arguments |
| ObjectFactory.Factory.GetWorkerByName | src/Factory.php:181-199 | a cached worker is returned with nothing changed; otherwise a fresh worker built with the factory as argument, run once and cached, or the error with the cache unchanged |

## Left out

- **External changes to the collections.** The container's public collection getters (`Container.php:244-299`) create each collection lazily. Here the collections are fields that start empty. Code outside the container that changes them through the getters is not modelled.
- **Closure bodies.** The model does not include what service closures do, including closures that re-enter the container or the factory. `is_callable` is taken to hold for every `\Closure`.
- **Reflection details.** PHP compares class and method names without regard to case; the model compares them exactly. The `$autoload` flag is not modelled.
- **Unknown classes in discovery.** When `getClassSetterDependencies` is asked about a class that cannot be loaded, PHP fails inside `array_keys` before anything is cached. This is modelled as `ClassNotFound` with no change to the container.
- **Constructor failures.** `newInstanceArgs` can fail when the arguments do not fit the constructor, and constructor bodies can have effects. Neither is modelled.
- **Worker return type.** The worker's `FactoryWorkerInterface` return-type check is not modelled, and neither is what `doWork` does.
- `buildParameterCollection` and the Collection library: constructor arguments are a sequence.
- **Exception messages** are not modelled.
- **Utils traits.** `EndsWith` and `LastTokenToName` come from a utility library that is not part of this model. They are given their plain meaning (`Text`).
- **Setter bodies and their failures.** The setter call at `Container.php:76` can throw, for example when a typed setter such as `setFoo(FooStub $Foo)` is handed a value of another type, or when the setter is not public (`method_exists` accepts it). The service then stays memoized but the receiver's class is not flagged as injected. `Instance.SetDependency` always succeeds, so this path is not modelled.
- **Default namespace of `getWorkerByName`.** The `$namespace` parameter defaults to `Everon\Component\Factory` (`Factory.php:181`). `Factory.GetWorkerByName` always takes the namespace as an argument.
- **Concurrency.** Thread safety is not modelled; PHP runs one request at a time.
