/**
 * The factory object. PHP keeps its container and its worker cache in static
 * properties shared by every Factory; here they are the fields of one
 * FactoryStatics object that every Factory refers to. Each method is proved to
 * follow the matching definition in FactoryModel.
 */
module ObjectFactory {
  import opened Base
  import opened Types
  import ContainerModel
  import FactoryModel
  import opened DependencyContainer

  /** The static properties of the Factory class. */
  class FactoryStatics {
    var dependencyContainer: Container?
    /** Built workers by worker class name (without namespace). */
    var workerCollection: map<string, Instance>

    constructor ()
      ensures dependencyContainer == null && workerCollection == map[]
    {
      dependencyContainer := null;
      workerCollection := map[];
    }
  }

  class Factory {
    const statics: FactoryStatics

    /** A factory is only ever used with a container in place, and the container keeps its invariant. */
    ghost predicate Valid()
      reads statics, statics.dependencyContainer
    {
      statics.dependencyContainer != null && statics.dependencyContainer.Valid()
    }

    /** The state of the container the factory works through. */
    ghost function ContainerState(): ContainerModel.Store
      requires statics.dependencyContainer != null
      reads statics, statics.dependencyContainer
    {
      statics.dependencyContainer.Model()
    }

    /** Every construction replaces the shared container and empties the shared worker cache. */
    constructor (statics: FactoryStatics, container: Container)
      requires container.Valid()
      modifies statics
      ensures this.statics == statics
      ensures statics.dependencyContainer == container && statics.workerCollection == map[]
      ensures Valid()
    {
      this.statics := statics;
      new;
      statics.dependencyContainer := container;
      statics.workerCollection := map[];
    }

    method GetDependencyContainer() returns (container: Container)
      requires Valid()
      ensures container == statics.dependencyContainer && container.Valid()
    {
      container := statics.dependencyContainer;
    }

    /** Replaces the container for every factory; the worker cache is kept. */
    method SetDependencyContainer(container: Container)
      requires container.Valid()
      modifies statics
      ensures statics.dependencyContainer == container
      ensures statics.workerCollection == old(statics.workerCollection)
      ensures Valid()
    {
      statics.dependencyContainer := container;
    }

    method ClassExists(rt: Runtime, className: string) returns (res: Result<()>)
      ensures res == FactoryModel.ClassExists(rt, className)
      ensures res.Ok? <==> Known(rt, className)
    {
      if !Known(rt, className) {
        return Err(UndefinedClass(className));
      }
      res := Ok(());
    }

    method InjectFactoryWhenRequired(rt: Runtime, className: string, receiver: Instance?) returns (res: Result<()>)
      requires Valid()
      modifies receiver
      ensures var required := FactoryModel.FactoryWhenRequired(rt, ContainerState(), className, old(SubjectOf(receiver)));
        && res == (if required.Err? then Err(required.error) else Ok(()))
        && (receiver != null ==>
              && receiver.factory == (if required == Ok(true) then this else old(receiver.factory))
              && receiver.received == old(receiver.received) && receiver.workCalls == old(receiver.workCalls))
    {
      var container := GetDependencyContainer();
      if container.IsFactoryRequired(className) {
        if receiver == null || !IsFactoryAware(rt, receiver.cls) {
          return Err(MissingFactoryAwareInterface(className));
        }
        receiver.SetFactory(this);
      }
      res := Ok(());
    }

    method InjectDependencies(rt: Runtime, className: string, receiver: Instance?) returns (res: Result<()>)
      requires Valid()
      modifies statics.dependencyContainer, receiver
      ensures Valid()
      ensures var o := FactoryModel.InjectDependencies(rt, old(ContainerState()), className, old(SubjectOf(receiver)));
        && ContainerState() == o.st && SubjectOf(receiver) == o.subject && res == o.result
        && (receiver != null ==>
              && receiver.factory == (if o.factorySet then this else old(receiver.factory))
              && receiver.workCalls == old(receiver.workCalls))
    {
      var container := GetDependencyContainer();
      var injected := container.Inject(rt, className, receiver);
      if injected.Err? {
        return injected;
      }
      res := InjectFactoryWhenRequired(rt, className, receiver);
    }

    method InjectDependenciesOnce(rt: Runtime, className: string, receiver: Instance?) returns (res: Result<()>)
      requires Valid()
      modifies statics.dependencyContainer, receiver
      ensures Valid()
      ensures var o := FactoryModel.InjectDependenciesOnce(rt, old(ContainerState()), className, old(SubjectOf(receiver)));
        && ContainerState() == o.st && SubjectOf(receiver) == o.subject && res == o.result
        && (receiver != null ==>
              && receiver.factory == (if o.factorySet then this else old(receiver.factory))
              && receiver.workCalls == old(receiver.workCalls))
    {
      var container := GetDependencyContainer();
      var injected := container.InjectOnce(rt, className, receiver);
      if injected.Err? {
        return injected;
      }
      res := InjectFactoryWhenRequired(rt, className, receiver);
    }

    /** What both build methods do, the constructor being handed `args`. */
    method Build(rt: Runtime, className: string, namespace: string, args: seq<Param>) returns (res: Result<Instance>)
      requires Valid()
      modifies statics.dependencyContainer
      ensures Valid()
      ensures var o := FactoryModel.Build(rt, old(ContainerState()), namespace, className);
        && ContainerState() == o.st
        && (o.result.Err? ==> res == Err(o.result.error))
        && (o.result.Ok? ==>
              && res.Ok? && fresh(res.value)
              && SubjectOf(res.value) == o.subject && res.value.args == args
              && res.value.factory == (if o.factorySet then this else null)
              && res.value.workCalls == 0)
    {
      var fullName := FactoryModel.GetFullClassName(namespace, className);
      var found := ClassExists(rt, fullName);
      if found.Err? {
        return Err(found.error);
      }
      var info := rt[ClassKey(fullName)];
      if !info.instantiable {
        if info.isAbstract {
          return Err(InstanceIsAbstractClass(fullName));
        } else {
          return Err(UnableToInstantiate(fullName));
        }
      }
      var instance := new Instance(ClassKey(fullName), args);
      var injected := InjectDependencies(rt, fullName, instance);
      if injected.Err? {
        return Err(injected.error);
      }
      res := Ok(instance);
    }

    method BuildWithEmptyConstructor(rt: Runtime, className: string, namespace: string) returns (res: Result<Instance>)
      requires Valid()
      modifies statics.dependencyContainer
      ensures Valid()
      ensures var o := FactoryModel.Build(rt, old(ContainerState()), namespace, className);
        && ContainerState() == o.st
        && (o.result.Err? ==> res == Err(o.result.error))
        && (o.result.Ok? ==>
              && res.Ok? && fresh(res.value)
              && SubjectOf(res.value) == o.subject && res.value.args == []
              && res.value.factory == (if o.factorySet then this else null)
              && res.value.workCalls == 0)
    {
      res := Build(rt, className, namespace, []);
    }

    method BuildWithConstructorParameters(rt: Runtime, className: string, namespace: string, parameters: seq<Param>)
      returns (res: Result<Instance>)
      requires Valid()
      modifies statics.dependencyContainer
      ensures Valid()
      ensures var o := FactoryModel.Build(rt, old(ContainerState()), namespace, className);
        && ContainerState() == o.st
        && (o.result.Err? ==> res == Err(o.result.error))
        && (o.result.Ok? ==>
              && res.Ok? && fresh(res.value)
              && SubjectOf(res.value) == o.subject && res.value.args == parameters
              && res.value.factory == (if o.factorySet then this else null)
              && res.value.workCalls == 0)
    {
      res := Build(rt, className, namespace, parameters);
    }

    /**
     * The worker called `name`: served from the shared cache, which is keyed by
     * the worker's class name without its namespace; otherwise built with this
     * factory as its one constructor argument, run once and cached.
     */
    method GetWorkerByName(rt: Runtime, name: string, namespace: string) returns (res: Result<Instance>)
      requires Valid()
      modifies statics, statics.dependencyContainer
      ensures Valid()
      ensures statics.dependencyContainer == old(statics.dependencyContainer)
      ensures var key := FactoryModel.WorkerClassName(name);
        res.Ok? ==> key in statics.workerCollection && statics.workerCollection[key] == res.value
      ensures var key := FactoryModel.WorkerClassName(name);
        key !in old(statics.workerCollection) && res.Ok? ==> fresh(res.value) && res.value.workCalls == 1
      ensures var key := FactoryModel.WorkerClassName(name);
        key in old(statics.workerCollection) ==>
          && res == Ok(old(statics.workerCollection)[key])
          && statics.workerCollection == old(statics.workerCollection)
          && ContainerState() == old(ContainerState())
      ensures var key := FactoryModel.WorkerClassName(name);
        var o := FactoryModel.NewWorker(rt, old(ContainerState()), namespace, name);
        key !in old(statics.workerCollection) ==>
          && ContainerState() == o.st
          && (o.result.Err? ==>
                res == Err(o.result.error) && statics.workerCollection == old(statics.workerCollection))
          && (o.result.Ok? ==>
                && res.Ok? && fresh(res.value)
                && statics.workerCollection == old(statics.workerCollection)[key := res.value]
                && SubjectOf(res.value) == o.subject && res.value.args == [Ref(this)]
                && res.value.factory == (if o.factorySet then this else null)
                && res.value.workCalls == 1)
    {
      var className := FactoryModel.WorkerClassName(name);
      if className in statics.workerCollection {
        return Ok(statics.workerCollection[className]);
      }
      var built := BuildWithConstructorParameters(rt, className, namespace, [Ref(this)]);
      if built.Err? {
        return built;
      }
      var worker := built.value;
      var fullName := FactoryModel.GetFullClassName(namespace, className);
      if FactoryModel.DO_WORK !in MethodsOf(rt, fullName) {
        return Err(UndefinedMethod(ClassKey(fullName), FactoryModel.DO_WORK));
      }
      worker.DoWork();
      statics.workerCollection := statics.workerCollection[className := worker];
      res := Ok(statics.workerCollection[className]);
    }
  }
}
