/**
 * The dependency container as PHP runs it: an object whose five collections
 * its methods update in place, and the objects it injects dependencies into.
 * Every method is proved to leave the container exactly as the matching
 * definition in ContainerModel says.
 */
module DependencyContainer {
  import opened Base
  import opened Text
  import opened Types
  import ContainerModel

  /** A constructor argument: a plain value or a reference to an object. */
  datatype Param = Plain(v: Value) | Ref(o: object)

  /** An object the container and the factory work on. */
  class Instance {
    /** Its runtime class, as get_class reports it. */
    const cls: string
    /** What its constructor was given. */
    const args: seq<Param>
    /** What each dependency setter set<Name> was handed, by Name. */
    var received: map<string, Value>
    /** What setFactory was handed, if it was called. */
    var factory: object?
    /** How often doWork ran. */
    var workCalls: nat

    constructor (cls: string, args: seq<Param>)
      ensures this.cls == cls && this.args == args
      ensures received == map[] && factory == null && workCalls == 0
    {
      this.cls := cls;
      this.args := args;
      received := map[];
      factory := null;
      workCalls := 0;
    }

    /** The setter set<name>, which keeps the dependency it is handed. */
    method SetDependency(name: string, dependency: Value)
      modifies this
      ensures received == old(received)[name := dependency]
      ensures factory == old(factory) && workCalls == old(workCalls)
    {
      received := received[name := dependency];
    }

    method SetFactory(f: object)
      modifies this
      ensures factory == f
      ensures received == old(received) && workCalls == old(workCalls)
    {
      factory := f;
    }

    /** A worker's doWork; what it does beyond being called is not modelled. */
    method DoWork()
      modifies this
      ensures workCalls == old(workCalls) + 1
      ensures received == old(received) && factory == old(factory)
    {
      workCalls := workCalls + 1;
    }
  }

  /** What injection sees of a receiver: nothing for a non-object (null here), else its class and setters. */
  function SubjectOf(receiver: Instance?): ContainerModel.Subject
    reads receiver
  {
    if receiver == null then ContainerModel.NonObject
    else ContainerModel.Object(receiver.cls, receiver.received)
  }

  class Container {
    var serviceDefinitions: map<string, Closure>
    var services: map<string, Value>
    var classDependencies: map<string, seq<string>>
    var requireFactory: set<string>
    var injected: set<string>
    /** How often each name's service closure has run. */
    ghost var invocations: multiset<string>

    ghost function Model(): ContainerModel.Store
      reads this
    {
      ContainerModel.Store(serviceDefinitions, services, classDependencies, requireFactory, injected, invocations)
    }

    ghost predicate Valid()
      reads this
    {
      ContainerModel.Valid(Model())
    }

    /** The five collections start out empty. */
    constructor ()
      ensures Model() == ContainerModel.EMPTY && Valid()
    {
      serviceDefinitions := map[];
      services := map[];
      classDependencies := map[];
      requireFactory := {};
      injected := {};
      invocations := multiset{};
    }

    /** Registered: a definition or a memoized service exists; with the invariant, just a definition. */
    predicate IsRegistered(name: string)
      requires Valid()
      reads this
      ensures IsRegistered(name) <==> name in serviceDefinitions
    {
      name in serviceDefinitions || name in services
    }

    predicate IsInjected(className: string)
      reads this
    {
      className in injected
    }

    predicate IsFactoryRequired(className: string)
      reads this
    {
      className in requireFactory
    }

    method Register(name: string, closure: Closure) returns (res: Result<()>)
      requires Valid()
      modifies this
      ensures Valid()
      ensures ContainerModel.Step(Model(), res) == ContainerModel.Register(old(Model()), name, closure)
    {
      ContainerModel.RegisterContract(Model(), name, closure);
      if IsRegistered(name) {
        return Err(DependencyServiceAlreadyRegistered(name));
      }
      serviceDefinitions := serviceDefinitions[name := closure];
      services := services - {name};
      res := Ok(());
    }

    method Propose(name: string, closure: Closure) returns (res: Result<()>)
      requires Valid()
      modifies this
      ensures Valid()
      ensures ContainerModel.Step(Model(), res) == ContainerModel.Propose(old(Model()), name, closure)
    {
      if IsRegistered(name) {
        return Ok(());
      }
      res := Register(name, closure);
    }

    method Resolve(name: string) returns (res: Result<Value>)
      requires Valid()
      modifies this
      ensures Valid()
      ensures ContainerModel.Step(Model(), res) == ContainerModel.Resolve(old(Model()), name)
    {
      ContainerModel.ResolveContract(Model(), name);
      if name !in serviceDefinitions {
        return Err(UndefinedContainerDependency(name));
      }
      if name in services {
        return Ok(services[name]);
      }
      var service := serviceDefinitions[name];
      services := services[name := Produce(service)];
      invocations := invocations + multiset{name};
      res := Ok(services[name]);
    }

    /** The class's setter markers, from the cache or discovered over its ancestors and cached. */
    method GetClassSetterDependencies(rt: Runtime, className: string) returns (res: Result<seq<string>>)
      requires Valid()
      modifies this
      ensures Valid()
      ensures ContainerModel.Step(Model(), res) == ContainerModel.ClassSetterDependencies(rt, old(Model()), className)
    {
      ContainerModel.ClassSetterDependenciesContract(rt, Model(), className);
      if className in classDependencies {
        return Ok(classDependencies[className]);
      }
      if !Known(rt, className) {
        return Err(ClassNotFound(className));
      }
      var own := ArrayKeys(UsesOf(rt, className));
      var traits := own;
      var parents := ParentsOf(rt, className);
      for i := 0 to |parents|
        invariant traits == CollectTraits(rt, parents[..i], own)
      {
        traits := ArrayMerge(UsesOf(rt, parents[i]), traits);
        assert parents[..i + 1][..i] == parents[..i];
      }
      assert parents[..|parents|] == parents;
      var dependencies := ContainerModel.SetterMarkers(traits);
      classDependencies := classDependencies[className := dependencies];
      res := Ok(classDependencies[className]);
    }

    /** Hands the service `setterName` to the receiver's set<setterName> and flags the receiver's class injected. */
    method InjectSetterDependency(rt: Runtime, setterName: string, receiver: Instance) returns (res: Result<()>)
      requires Valid()
      modifies this, receiver
      ensures Valid()
      ensures ContainerModel.Run(Model(), SubjectOf(receiver), res)
           == ContainerModel.InjectSetterDependency(rt, old(Model()), setterName, old(SubjectOf(receiver)))
      ensures receiver.factory == old(receiver.factory) && receiver.workCalls == old(receiver.workCalls)
    {
      ContainerModel.InjectSetterDependencyFacts(rt, Model(), setterName, SubjectOf(receiver));
      var receiverClassName := receiver.cls;
      var setter := ContainerModel.SetterMethod(setterName);
      if setter !in MethodsOf(rt, receiver.cls) {
        return Err(UndefinedDependencySetter(setter, setterName, receiverClassName));
      }
      var dependency := Resolve(setterName);
      if dependency.Err? {
        return Err(dependency.error);
      }
      receiver.SetDependency(setterName, dependency.value);
      injected := injected + {receiverClassName};
      res := Ok(());
    }

    method Inject(rt: Runtime, receiverClassName: string, receiver: Instance?) returns (res: Result<()>)
      requires Valid()
      modifies this, receiver
      ensures Valid()
      ensures ContainerModel.Run(Model(), SubjectOf(receiver), res)
           == ContainerModel.Inject(rt, old(Model()), receiverClassName, old(SubjectOf(receiver)))
      ensures receiver != null ==> receiver.factory == old(receiver.factory) && receiver.workCalls == old(receiver.workCalls)
    {
      if receiver == null {
        return Err(InstanceIsNotObject);
      }
      var found := GetClassSetterDependencies(rt, receiverClassName);
      if found.Err? {
        return Err(found.error);
      }
      var dependencies := found.value;
      ghost var st0 := Model();
      ghost var subject0 := SubjectOf(receiver);
      for i := 0 to |dependencies|
        invariant Valid()
        invariant SubjectOf(receiver).Object?
        invariant ContainerModel.InjectMarkers(rt, Model(), receiverClassName, SubjectOf(receiver), dependencies[i..])
               == ContainerModel.InjectMarkers(rt, st0, receiverClassName, subject0, dependencies)
        invariant receiver.factory == old(receiver.factory) && receiver.workCalls == old(receiver.workCalls)
      {
        var dependencyName := dependencies[i];
        ghost var before := Model();
        ghost var subject := SubjectOf(receiver);
        assert dependencies[i..][0] == dependencyName && dependencies[i..][1..] == dependencies[i + 1..];
        if ContainerModel.IsFactoryInjection(dependencyName) {
          requireFactory := requireFactory + {receiverClassName};
          assert ContainerModel.InjectMarkers(rt, before, receiverClassName, subject, dependencies[i..])
              == ContainerModel.InjectMarkers(rt, Model(), receiverClassName, subject, dependencies[i + 1..]);
        } else {
          var requiredDependency := LastToken(dependencyName);
          var injectedOne := InjectSetterDependency(rt, requiredDependency, receiver);
          ghost var step := ContainerModel.InjectSetterDependency(rt, before, requiredDependency, subject);
          assert step == ContainerModel.Run(Model(), SubjectOf(receiver), injectedOne);
          if injectedOne.Err? {
            assert ContainerModel.InjectMarkers(rt, before, receiverClassName, subject, dependencies[i..]) == step;
            return injectedOne;
          }
          assert ContainerModel.InjectMarkers(rt, before, receiverClassName, subject, dependencies[i..])
              == ContainerModel.InjectMarkers(rt, Model(), receiverClassName, SubjectOf(receiver), dependencies[i + 1..]);
        }
      }
      res := Ok(());
    }

    method InjectOnce(rt: Runtime, receiverClassName: string, receiver: Instance?) returns (res: Result<()>)
      requires Valid()
      modifies this, receiver
      ensures Valid()
      ensures ContainerModel.Run(Model(), SubjectOf(receiver), res)
           == ContainerModel.InjectOnce(rt, old(Model()), receiverClassName, old(SubjectOf(receiver)))
      ensures receiver != null ==> receiver.factory == old(receiver.factory) && receiver.workCalls == old(receiver.workCalls)
    {
      if IsInjected(receiverClassName) {
        return Ok(());
      }
      res := Inject(rt, receiverClassName, receiver);
    }
  }
}
