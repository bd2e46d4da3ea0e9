/**
 * The factory as values: how it names classes, the checks it runs before it
 * instantiates one, and what injecting dependencies through it does to the
 * container and to the receiver. The Factory class in factory.dfy is proved
 * to follow these definitions.
 */
module FactoryModel {
  import opened Base
  import opened Text
  import opened Types
  import opened ContainerModel

  /** Appended to a worker's name to give its class name. */
  const WORKER_SUFFIX: string := "FactoryWorker"
  /** The method getWorkerByName calls on a newly built worker. */
  const DO_WORK: string := "doWork"

  /**
   * A name with a leading backslash is absolute and kept as it is; any other
   * name is put under the namespace. Either way the last segment is the name's.
   * An empty name reads as relative: PHP yields an empty string for its
   * first character.
   */
  function GetFullClassName(namespace: string, className: string): (r: string)
    ensures EndsWith(r, className)
    ensures LastToken(r) == LastToken(className)
    ensures |className| > 0 && className[0] == '\\' ==> r == className
    ensures !(|className| > 0 && className[0] == '\\') ==> r == namespace + "\\" + className
  {
    if |className| > 0 && className[0] == '\\' then className
    else
      var r := namespace + "\\" + className;
      assert r[|r| - |className|..] == className;
      LastTokenAfterSeparator(namespace, className);
      r
  }

  /** classExists: the class must be loadable. */
  function ClassExists(rt: Runtime, className: string): (r: Result<()>)
    ensures r.Ok? <==> Known(rt, className)
    ensures r.Err? ==> r.error == UndefinedClass(className)
  {
    if Known(rt, className) then Ok(()) else Err(UndefinedClass(className))
  }

  /**
   * What both build methods check before they instantiate: the class exists,
   * then it is instantiable; an abstract class and any other class that cannot
   * be instantiated fail with different errors.
   */
  function Instantiable(rt: Runtime, className: string): (r: Result<()>)
    ensures r.Ok? <==> Known(rt, className) && rt[ClassKey(className)].instantiable
    ensures !Known(rt, className) ==> r == ClassExists(rt, className)
  {
    var found := ClassExists(rt, className);
    if found.Err? then found
    else
      var info := rt[ClassKey(className)];
      if info.instantiable then Ok(())
      else if info.isAbstract then Err(InstanceIsAbstractClass(className))
      else Err(UnableToInstantiate(className))
  }

  /** The class name of the worker called `name`. */
  function WorkerClassName(name: string): (r: string)
    ensures EndsWith(r, WORKER_SUFFIX)
    ensures |r| == |name| + |WORKER_SUFFIX|
    ensures r[..|name|] == name
  {
    var r := name + WORKER_SUFFIX;
    assert r[|r| - |WORKER_SUFFIX|..] == WORKER_SUFFIX;
    r
  }

  /**
   * injectFactoryWhenRequired: Ok(false) when the class name is not flagged as
   * requiring the factory, Ok(true) when the factory is handed to the receiver,
   * and an error when the receiver cannot take it.
   */
  function FactoryWhenRequired(rt: Runtime, st: Store, className: string, subject: Subject): (r: Result<bool>)
    ensures r == Ok(false) <==> className !in st.requireFactory
    ensures r == Ok(true) <==> className in st.requireFactory && subject.Object? && IsFactoryAware(rt, subject.cls)
    ensures r.Err? ==> r.error == MissingFactoryAwareInterface(className)
  {
    if className !in st.requireFactory then Ok(false)
    else if subject.Object? && IsFactoryAware(rt, subject.cls) then Ok(true)
    else Err(MissingFactoryAwareInterface(className))
  }

  /** The container and the receiver after the factory has worked, whether it handed itself over, and the outcome. */
  datatype Outcome = Outcome(st: Store, subject: Subject, factorySet: bool, result: Result<()>)

  /** The factory check after an injection run: skipped, with the run's error as it is, when the run failed. */
  function AfterInjection(rt: Runtime, run: Run, className: string): (o: Outcome)
    ensures o.st == run.st && o.subject == run.subject
    ensures o.factorySet ==> run.result.Ok? && FactoryWhenRequired(rt, run.st, className, run.subject) == Ok(true)
    ensures run.result.Err? ==> o.result == run.result
  {
    if run.result.Err? then Outcome(run.st, run.subject, false, run.result)
    else
      match FactoryWhenRequired(rt, run.st, className, run.subject)
      case Err(e) => Outcome(run.st, run.subject, false, Err(e))
      case Ok(handed) => Outcome(run.st, run.subject, handed, Ok(()))
  }

  function InjectDependencies(rt: Runtime, st: Store, className: string, subject: Subject): Outcome
  {
    AfterInjection(rt, Inject(rt, st, className, subject), className)
  }

  function InjectDependenciesOnce(rt: Runtime, st: Store, className: string, subject: Subject): Outcome
  {
    AfterInjection(rt, InjectOnce(rt, st, className, subject), className)
  }

  /**
   * Either build method: the checks, then a fresh object of the class (as
   * get_class names it) with no setter called yet, then injectDependencies
   * under the full name. When a check fails there is no object: NonObject.
   */
  function Build(rt: Runtime, st: Store, namespace: string, className: string): Outcome
  {
    var full := GetFullClassName(namespace, className);
    var check := Instantiable(rt, full);
    if check.Err? then Outcome(st, NonObject, false, check)
    else InjectDependencies(rt, st, full, Object(ClassKey(full), map[]))
  }

  /** getWorkerByName after a cache miss: build the worker, then it must have doWork. */
  function NewWorker(rt: Runtime, st: Store, namespace: string, name: string): Outcome
  {
    var className := WorkerClassName(name);
    var full := GetFullClassName(namespace, className);
    var built := Build(rt, st, namespace, className);
    if built.result.Ok? && DO_WORK !in MethodsOf(rt, full) then built.(result := Err(UndefinedMethod(ClassKey(full), DO_WORK)))
    else built
  }

  // ---------------------------------------------------------------------
  // Injection through the factory

  /** An error from the container reaches the caller as it is, and the factory check does not run. */
  lemma InjectDependenciesUnwrapped(rt: Runtime, st: Store, className: string, subject: Subject)
    requires Inject(rt, st, className, subject).result.Err?
    ensures var run := Inject(rt, st, className, subject);
      InjectDependencies(rt, st, className, subject) == Outcome(run.st, run.subject, false, run.result)
  {
  }

  /** Injecting through the factory keeps the container's invariant and undoes nothing. */
  lemma InjectDependenciesValid(rt: Runtime, st: Store, className: string, subject: Subject)
    requires Valid(st)
    ensures var o := InjectDependencies(rt, st, className, subject);
      Valid(o.st) && Grows(st, o.st) && o.subject.Object? == subject.Object?
    ensures var o := InjectDependenciesOnce(rt, st, className, subject);
      Valid(o.st) && Grows(st, o.st) && o.subject.Object? == subject.Object?
  {
    InjectValid(rt, st, className, subject);
    InjectOnceContract(rt, st, className, subject);
  }

  /**
   * A class whose dependency list holds the factory marker gets the factory
   * once its setters have all been served: it is handed over when the
   * receiver is factory-aware, and the call fails otherwise.
   */
  lemma FactoryMarkerChecksAwareness(rt: Runtime, st: Store, className: string, subject: Subject)
    requires Valid(st) && subject.Object?
    requires var found := ClassSetterDependencies(rt, st, className);
      && found.result.Ok?
      && exists i :: 0 <= i < |found.result.value| && IsFactoryInjection(found.result.value[i])
    requires Inject(rt, st, className, subject).result.Ok?
    ensures var o := InjectDependencies(rt, st, className, subject);
      && o.factorySet == IsFactoryAware(rt, subject.cls)
      && o.result == if IsFactoryAware(rt, subject.cls) then Ok(()) else Err(MissingFactoryAwareInterface(className))
  {
    FactoryMarkerRequiresFactory(rt, st, className, subject);
    InjectDelivers(rt, st, className, subject);
    FlaggedCheck(rt, Inject(rt, st, className, subject), className);
  }

  /** With the require-factory flag, the check after a successful run hands over the factory or fails. */
  lemma FlaggedCheck(rt: Runtime, run: Run, className: string)
    requires run.result.Ok? && className in run.st.requireFactory && run.subject.Object?
    ensures var o := AfterInjection(rt, run, className);
      && o.factorySet == IsFactoryAware(rt, run.subject.cls)
      && o.result == if IsFactoryAware(rt, run.subject.cls) then Ok(()) else Err(MissingFactoryAwareInterface(className))
  {
  }

  /**
   * A class name never flagged before and without the factory marker is not
   * handed the factory: injectDependencies is exactly inject.
   */
  lemma NoFactoryMarkerNoHandover(rt: Runtime, st: Store, className: string, subject: Subject)
    requires className !in st.requireFactory
    requires var found := ClassSetterDependencies(rt, st, className);
      found.result.Ok? && forall i :: 0 <= i < |found.result.value| ==> !IsFactoryInjection(found.result.value[i])
    ensures var run := Inject(rt, st, className, subject);
      InjectDependencies(rt, st, className, subject) == Outcome(run.st, run.subject, false, run.result)
  {
    NoFactoryMarkerNoFlag(rt, st, className, subject);
    UnflaggedNoHandover(rt, Inject(rt, st, className, subject), className);
  }

  /** Without the require-factory flag the factory check passes and hands nothing over. */
  lemma UnflaggedNoHandover(rt: Runtime, run: Run, className: string)
    requires className !in run.st.requireFactory
    ensures AfterInjection(rt, run, className) == Outcome(run.st, run.subject, false, run.result)
  {
    if run.result.Ok? {
      assert FactoryWhenRequired(rt, run.st, className, run.subject) == Ok(false);
      assert run.result.value == ();
    }
  }

  /**
   * injectDependenciesOnce skips the container for a class name already
   * flagged injected, but still runs the factory check, which even a
   * non-object fails once the class name requires the factory.
   */
  lemma OnceStillChecksFactory(rt: Runtime, st: Store, className: string, subject: Subject)
    requires className in st.injected
    ensures InjectDependenciesOnce(rt, st, className, subject)
         == AfterInjection(rt, Run(st, subject, Ok(())), className)
    ensures className in st.requireFactory && subject.NonObject? ==>
      InjectDependenciesOnce(rt, st, className, subject).result == Err(MissingFactoryAwareInterface(className))
  {
  }

  // ---------------------------------------------------------------------
  // Building

  /** The checks run in order and a failed one leaves the container untouched. */
  lemma BuildChecksFirst(rt: Runtime, st: Store, namespace: string, className: string)
    ensures var full := GetFullClassName(namespace, className);
      var o := Build(rt, st, namespace, className);
      && (!Known(rt, full) ==> o == Outcome(st, NonObject, false, Err(UndefinedClass(full))))
      && (Known(rt, full) && !rt[ClassKey(full)].instantiable ==>
            o == Outcome(st, NonObject, false,
                         if rt[ClassKey(full)].isAbstract then Err(InstanceIsAbstractClass(full))
                         else Err(UnableToInstantiate(full))))
      && (Known(rt, full) && rt[ClassKey(full)].instantiable ==>
            o == InjectDependencies(rt, st, full, Object(ClassKey(full), map[])))
  {
  }

  /**
   * A successful build yields an object of the class under its runtime name
   * whose setters have received, for every marker of the class except the
   * factory marker, the container's memoized service that the marker names.
   */
  lemma BuildDelivers(rt: Runtime, st: Store, namespace: string, className: string)
    requires Valid(st)
    ensures var full := GetFullClassName(namespace, className);
      var o := Build(rt, st, namespace, className);
      o.result.Ok? ==>
        && Known(rt, full)
        && o.subject.Object? && o.subject.cls == ClassKey(full)
        && var deps := ClassSetterDependencies(rt, st, full).result.value;
           forall i :: 0 <= i < |deps| && !IsFactoryInjection(deps[i]) ==>
             Delivered(o.st, o.subject, LastToken(deps[i]))
  {
    var full := GetFullClassName(namespace, className);
    InjectDelivers(rt, st, full, Object(ClassKey(full), map[]));
  }

  /**
   * A build flags the runtime class name (no leading backslash) as injected,
   * but flags the full name as it was written as requiring the factory: no
   * other name is flagged, and a successful build flags the runtime name when
   * the class has an ordinary marker and the full name when it has the
   * factory marker.
   */
  lemma BuildFlagKeys(rt: Runtime, st: Store, namespace: string, className: string)
    ensures var full := GetFullClassName(namespace, className);
      var o := Build(rt, st, namespace, className);
      && o.st.injected <= st.injected + {ClassKey(full)}
      && o.st.requireFactory <= st.requireFactory + {full}
      && (o.result.Ok? ==>
            var deps := ClassSetterDependencies(rt, st, full).result.value;
            && ((exists i :: 0 <= i < |deps| && !IsFactoryInjection(deps[i])) ==> ClassKey(full) in o.st.injected)
            && ((exists i :: 0 <= i < |deps| && IsFactoryInjection(deps[i])) ==> full in o.st.requireFactory))
  {
    var full := GetFullClassName(namespace, className);
    InjectFlagKeys(rt, st, full, ClassKey(full), map[]);
  }

  /** A worker is only ever returned when its class exists, is instantiable and has doWork. */
  lemma NewWorkerNeedsDoWork(rt: Runtime, st: Store, namespace: string, name: string)
    ensures var full := GetFullClassName(namespace, WorkerClassName(name));
      NewWorker(rt, st, namespace, name).result.Ok? ==>
        Known(rt, full) && rt[ClassKey(full)].instantiable && DO_WORK in MethodsOf(rt, full)
  {
  }
}
