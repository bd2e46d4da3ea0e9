/**
 * The dependency container as a value: its five collections and the pure
 * meaning of each of its operations. The imperative class in container.dfy is
 * proved to follow these definitions; the lemmas here state what they promise.
 */
module ContainerModel {
  import opened Base
  import opened Text
  import opened Types

  /** The marker of a class that wants the factory handed to it. */
  const DEPENDENCY_SETTER_FACTORY: string := "Dependency\\Setter\\Factory"
  /** The namespace path every setter-injection marker ends in, before its leaf name. */
  const TYPE_SETTER_INJECTION: string := "Dependency\\Setter"

  /** A trait name of the form `...Dependency\Setter\<Leaf>`. */
  predicate IsSetterInjection(dependencyName: string)
  {
    EndsWith(dependencyName, TYPE_SETTER_INJECTION + "\\" + LastToken(dependencyName))
  }

  predicate IsFactoryInjection(dependencyName: string)
  {
    EndsWith(dependencyName, DEPENDENCY_SETTER_FACTORY)
  }

  /** The setter a dependency named `setterName` is handed to. */
  function SetterMethod(setterName: string): string
  {
    "set" + setterName
  }

  /** Every `<prefix>Dependency\Setter\<Leaf>` is a setter marker, and `<Leaf>` is the service it names. */
  lemma SetterMarkerShape(prefix: string, leaf: string)
    requires '\\' !in leaf
    ensures IsSetterInjection(prefix + "Dependency\\Setter\\" + leaf)
    ensures LastToken(prefix + "Dependency\\Setter\\" + leaf) == leaf
  {
    var m := prefix + "Dependency\\Setter\\" + leaf;
    var suffix := TYPE_SETTER_INJECTION + "\\" + leaf;
    assert m == (prefix + TYPE_SETTER_INJECTION) + "\\" + leaf by {
      assert "Dependency\\Setter\\" == TYPE_SETTER_INJECTION + "\\";
    }
    assert LastToken(m) == leaf by {
      LastTokenAfterSeparator(prefix + TYPE_SETTER_INJECTION, leaf);
      PlainNameIsLastToken(leaf);
    }
    assert EndsWith(m, suffix) by {
      assert m == prefix + suffix;
      assert m[|m| - |suffix|..] == suffix;
    }
  }

  /** The factory marker passes the setter-marker filter, which is how it reaches inject's loop. */
  lemma FactoryMarkerIsSetterMarker(dependencyName: string)
    requires IsFactoryInjection(dependencyName)
    ensures IsSetterInjection(dependencyName)
    ensures LastToken(dependencyName) == "Factory"
  {
    var n := dependencyName;
    var prefix := n[..|n| - |DEPENDENCY_SETTER_FACTORY|];
    assert n == prefix + "Dependency\\Setter\\" + "Factory";
    SetterMarkerShape(prefix, "Factory");
  }

  /** array_filter of trait names with isSetterInjection: order kept. */
  function SetterMarkers(s: seq<string>): (r: seq<string>)
    ensures forall x :: x in r <==> x in s && IsSetterInjection(x)
    ensures Distinct(s) ==> Distinct(r)
    decreases |s|
  {
    if s == [] then []
    else
      var x := s[|s| - 1];
      assert s == s[..|s| - 1] + [x];
      SetterMarkers(s[..|s| - 1]) + if IsSetterInjection(x) then [x] else []
  }

  lemma {:induction false} SetterMarkersAppend(a: seq<string>, b: seq<string>)
    ensures SetterMarkers(a + b) == SetterMarkers(a) + SetterMarkers(b)
    decreases |b|
  {
    if b == [] {
      assert a + b == a;
      AppendEmpty(SetterMarkers(a));
    } else {
      var init := b[..|b| - 1];
      var x := b[|b| - 1];
      var t := if IsSetterInjection(x) then [x] else [];
      assert (a + b)[..|a + b| - 1] == a + init;
      SetterMarkersAppend(a, init);
      assert SetterMarkers(a + b) == (SetterMarkers(a) + SetterMarkers(init)) + t;
      AppendAssociative(SetterMarkers(a), SetterMarkers(init), t);
    }
  }

  /** A dependency list as the container caches it: distinct setter markers. */
  predicate MarkerList(s: seq<string>)
  {
    Distinct(s) && forall i :: 0 <= i < |s| ==> IsSetterInjection(s[i])
  }

  /** What getClassSetterDependencies computes for a class it has not seen. */
  function SetterDependencies(rt: Runtime, className: string): (r: seq<string>)
    ensures MarkerList(r)
    ensures forall x :: x in r <==>
      IsSetterInjection(x) && (x in UsesOf(rt, className) || x in AncestorUses(rt, ParentsOf(rt, className)))
  {
    SetterMarkers(Traits(rt, className))
  }

  /**
   * The discovered dependency list: the markers of the ancestors' traits
   * first, then the markers only the class itself uses, each group in its order.
   */
  lemma DependencyOrder(rt: Runtime, className: string)
    ensures SetterDependencies(rt, className)
         == SetterMarkers(CollectTraits(rt, ParentsOf(rt, className), []))
          + SetterMarkers(Without(ArrayKeys(UsesOf(rt, className)), AncestorUses(rt, ParentsOf(rt, className))))
  {
    TraitsOrder(rt, className);
    SetterMarkersAppend(
      CollectTraits(rt, ParentsOf(rt, className), []),
      Without(ArrayKeys(UsesOf(rt, className)), AncestorUses(rt, ParentsOf(rt, className))));
  }

  /** The five collections, plus a ghost count of service-closure invocations per name. */
  datatype Store = Store(
    definitions: map<string, Closure>,
    services: map<string, Value>,
    classDependencies: map<string, seq<string>>,
    requireFactory: set<string>,
    injected: set<string>,
    invocations: multiset<string>)

  const EMPTY: Store := Store(map[], map[], map[], {}, {}, multiset{})

  /** The result of an operation and the store after it. */
  datatype Step<T> = Step(st: Store, result: Result<T>)

  /** The receiver of an injection: a non-object, or an object with its runtime class and the values its setters got. */
  datatype Subject = NonObject | Object(cls: string, received: map<string, Value>)

  /** The result of an injection, the store after it and the receiver after it. */
  datatype Run = Run(st: Store, subject: Subject, result: Result<()>)

  /**
   * The container's invariant: a memoized service always has its definition,
   * a closure has run exactly for the memoized names and at most once each,
   * and every cached dependency list is a list of distinct setter markers.
   */
  ghost predicate Valid(st: Store)
  {
    && (forall n :: n in st.services ==> n in st.definitions)
    && (forall n :: st.invocations[n] == if n in st.services then 1 else 0)
    && (forall c :: c in st.classDependencies ==> MarkerList(st.classDependencies[c]))
  }

  /** Nothing an operation does is ever undone: entries keep their values, flags stay set. */
  ghost predicate Grows(a: Store, b: Store)
  {
    && (forall n :: n in a.definitions ==> n in b.definitions && b.definitions[n] == a.definitions[n])
    && (forall n :: n in a.services ==> n in b.services && b.services[n] == a.services[n])
    && (forall c :: c in a.classDependencies ==>
          c in b.classDependencies && b.classDependencies[c] == a.classDependencies[c])
    && a.requireFactory <= b.requireFactory
    && a.injected <= b.injected
    && a.invocations <= b.invocations
  }

  lemma GrowsTransitive(a: Store, b: Store, c: Store)
    requires Grows(a, b) && Grows(b, c)
    ensures Grows(a, c)
  {
  }

  predicate Registered(st: Store, name: string)
  {
    name in st.definitions || name in st.services
  }

  function Register(st: Store, name: string, closure: Closure): Step<()>
  {
    if Registered(st, name) then Step(st, Err(DependencyServiceAlreadyRegistered(name)))
    else Step(st.(definitions := st.definitions[name := closure], services := st.services - {name}), Ok(()))
  }

  function Propose(st: Store, name: string, closure: Closure): Step<()>
  {
    if Registered(st, name) then Step(st, Ok(())) else Register(st, name, closure)
  }

  function Resolve(st: Store, name: string): Step<Value>
  {
    if name !in st.definitions then Step(st, Err(UndefinedContainerDependency(name)))
    else if name in st.services then Step(st, Ok(st.services[name]))
    else
      var service := Produce(st.definitions[name]);
      Step(st.(services := st.services[name := service], invocations := st.invocations + multiset{name}),
           Ok(service))
  }

  /** getClassSetterDependencies: served from the cache, else discovered and cached. */
  function ClassSetterDependencies(rt: Runtime, st: Store, className: string): Step<seq<string>>
  {
    if className in st.classDependencies then Step(st, Ok(st.classDependencies[className]))
    else if !Known(rt, className) then Step(st, Err(ClassNotFound(className)))
    else
      var dependencies := SetterDependencies(rt, className);
      Step(st.(classDependencies := st.classDependencies[className := dependencies]), Ok(dependencies))
  }

  function InjectSetterDependency(rt: Runtime, st: Store, setterName: string, subject: Subject): Run
    requires subject.Object?
  {
    var setter := SetterMethod(setterName);
    if setter !in MethodsOf(rt, subject.cls) then
      Run(st, subject, Err(UndefinedDependencySetter(setter, setterName, subject.cls)))
    else
      var resolved := Resolve(st, setterName);
      if resolved.result.Err? then Run(resolved.st, subject, Err(resolved.result.error))
      else
        Run(resolved.st.(injected := resolved.st.injected + {subject.cls}),
            subject.(received := subject.received[setterName := resolved.result.value]),
            Ok(()))
  }

  /** inject's loop over the dependency list, stopping at the first failure. */
  function InjectMarkers(rt: Runtime, st: Store, className: string, subject: Subject, dependencies: seq<string>): Run
    requires subject.Object?
    decreases |dependencies|
  {
    if dependencies == [] then Run(st, subject, Ok(()))
    else if IsFactoryInjection(dependencies[0]) then
      InjectMarkers(rt, st.(requireFactory := st.requireFactory + {className}), className, subject, dependencies[1..])
    else
      var step := InjectSetterDependency(rt, st, LastToken(dependencies[0]), subject);
      if step.result.Err? then step
      else InjectMarkers(rt, step.st, className, step.subject, dependencies[1..])
  }

  function Inject(rt: Runtime, st: Store, className: string, subject: Subject): Run
  {
    if subject.NonObject? then Run(st, subject, Err(InstanceIsNotObject))
    else
      var found := ClassSetterDependencies(rt, st, className);
      if found.result.Err? then Run(found.st, subject, Err(found.result.error))
      else InjectMarkers(rt, found.st, className, subject, found.result.value)
  }

  function InjectOnce(rt: Runtime, st: Store, className: string, subject: Subject): Run
  {
    if className in st.injected then Run(st, subject, Ok(())) else Inject(rt, st, className, subject)
  }

  // ---------------------------------------------------------------------
  // Registration

  lemma EmptyIsValid()
    ensures Valid(EMPTY)
  {
  }

  /** With the invariant, a name is registered exactly when it has a definition. */
  lemma RegisteredMeansDefined(st: Store, name: string)
    requires Valid(st)
    ensures Registered(st, name) <==> name in st.definitions
  {
  }

  /**
   * register refuses a registered name and changes nothing; on a fresh name it
   * adds exactly that definition, runs no closure and leaves all else alone.
   */
  lemma RegisterContract(st: Store, name: string, closure: Closure)
    requires Valid(st)
    ensures var r := Register(st, name, closure);
      && (Registered(st, name) ==> r == Step(st, Err(DependencyServiceAlreadyRegistered(name))))
      && (!Registered(st, name) ==>
            && r.result == Ok(())
            && r.st == st.(definitions := st.definitions[name := closure])
            && name !in r.st.services
            && Registered(r.st, name))
      && Valid(r.st) && Grows(st, r.st)
  {
  }

  /** propose never throws; on a registered name it changes nothing, otherwise it is register. */
  lemma ProposeContract(st: Store, name: string, closure: Closure)
    requires Valid(st)
    ensures var r := Propose(st, name, closure);
      && r.result == Ok(())
      && (Registered(st, name) ==> r.st == st)
      && (!Registered(st, name) ==> r == Register(st, name, closure))
      && Registered(r.st, name)
      && Valid(r.st) && Grows(st, r.st)
  {
    RegisterContract(st, name, closure);
  }

  // ---------------------------------------------------------------------
  // Resolution

  /**
   * resolve fails on a name without a definition; otherwise it returns the
   * memoized service, running the name's closure only when there is none yet.
   */
  lemma ResolveContract(st: Store, name: string)
    requires Valid(st)
    ensures var r := Resolve(st, name);
      && (name !in st.definitions ==> r == Step(st, Err(UndefinedContainerDependency(name))))
      && (name in st.definitions ==>
            && r.result.Ok?
            && name in r.st.services && r.st.services[name] == r.result.value
            && r.st.invocations[name] == 1
            && (name in st.services ==> r == Step(st, Ok(st.services[name])))
            && (name !in st.services ==> r.result.value == Produce(st.definitions[name])))
      && Valid(r.st) && Grows(st, r.st)
  {
  }

  /** A second resolve of the same name changes nothing and returns the same service. */
  lemma ResolveMemoized(st: Store, name: string)
    requires Valid(st)
    requires Resolve(st, name).result.Ok?
    ensures var first := Resolve(st, name);
      Resolve(first.st, name) == Step(first.st, first.result)
  {
  }

  /** Once a service is memoized, every later resolve, after any growth, returns it unchanged. */
  lemma ResolveServesMemoized(earlier: Store, later: Store, name: string)
    requires Grows(earlier, later) && Valid(later)
    requires name in earlier.services
    ensures Resolve(later, name) == Step(later, Ok(earlier.services[name]))
  {
  }

  /** propose on a registered name keeps the service resolve returns. */
  lemma ProposeKeepsService(st: Store, name: string, closure: Closure)
    requires Valid(st) && name in st.definitions
    ensures Resolve(Propose(st, name, closure).st, name).result == Resolve(st, name).result
  {
  }

  // ---------------------------------------------------------------------
  // Dependency discovery

  /**
   * The dependency list of a class is served from the cache when present;
   * otherwise an unknown class fails and a known one is discovered and cached.
   */
  lemma ClassSetterDependenciesContract(rt: Runtime, st: Store, className: string)
    requires Valid(st)
    ensures var r := ClassSetterDependencies(rt, st, className);
      && (className in st.classDependencies ==> r == Step(st, Ok(st.classDependencies[className])))
      && (className !in st.classDependencies && !Known(rt, className) ==>
            r == Step(st, Err(ClassNotFound(className))))
      && (className !in st.classDependencies && Known(rt, className) ==>
            && r.result == Ok(SetterDependencies(rt, className))
            && r.st == st.(classDependencies := st.classDependencies[className := r.result.value]))
      && (r.result.Ok? ==> MarkerList(r.result.value))
      && Valid(r.st) && Grows(st, r.st)
  {
  }

  /** A dependency list, once computed, is never computed again, whatever the class table says. */
  lemma ClassSetterDependenciesOnce(rt: Runtime, rt': Runtime, st: Store, className: string)
    requires ClassSetterDependencies(rt, st, className).result.Ok?
    ensures var first := ClassSetterDependencies(rt, st, className);
      ClassSetterDependencies(rt', first.st, className) == Step(first.st, first.result)
  {
  }

  // ---------------------------------------------------------------------
  // Injection

  /** inject on a non-object fails before any collection is touched. */
  lemma InjectNonObject(rt: Runtime, st: Store, className: string)
    ensures Inject(rt, st, className, NonObject) == Run(st, NonObject, Err(InstanceIsNotObject))
  {
  }

  /** A marker whose setter is missing fails before its service is resolved. */
  lemma SetterCheckedBeforeResolve(rt: Runtime, st: Store, className: string, subject: Subject, dependencies: seq<string>)
    requires subject.Object? && dependencies != []
    requires !IsFactoryInjection(dependencies[0])
    requires SetterMethod(LastToken(dependencies[0])) !in MethodsOf(rt, subject.cls)
    ensures InjectMarkers(rt, st, className, subject, dependencies)
         == Run(st, subject, Err(UndefinedDependencySetter(
              SetterMethod(LastToken(dependencies[0])), LastToken(dependencies[0]), subject.cls)))
  {
  }

  /**
   * Markers are processed in order and a failure rolls nothing back: running
   * a + b is running a and then, if a succeeded, b from where a left off.
   */
  lemma {:induction false} InjectMarkersCompose(rt: Runtime, st: Store, className: string, subject: Subject,
                                               a: seq<string>, b: seq<string>)
    requires subject.Object?
    ensures var first := InjectMarkers(rt, st, className, subject, a);
      first.subject.Object? &&
      InjectMarkers(rt, st, className, subject, a + b)
        == if first.result.Err? then first else InjectMarkers(rt, first.st, className, first.subject, b)
    decreases |a|
  {
    if a != [] {
      assert (a + b)[0] == a[0] && (a + b)[1..] == a[1..] + b;
      if IsFactoryInjection(a[0]) {
        InjectMarkersCompose(rt, st.(requireFactory := st.requireFactory + {className}), className, subject, a[1..], b);
      } else {
        var step := InjectSetterDependency(rt, st, LastToken(a[0]), subject);
        if step.result.Ok? {
          InjectMarkersCompose(rt, step.st, className, step.subject, a[1..], b);
        }
      }
    } else {
      assert a + b == b;
    }
  }

  lemma InjectSetterDependencyFacts(rt: Runtime, st: Store, setterName: string, subject: Subject)
    requires Valid(st) && subject.Object?
    ensures var r := InjectSetterDependency(rt, st, setterName, subject);
      && Valid(r.st) && Grows(st, r.st)
      && r.subject.Object? && r.subject.cls == subject.cls
      && r.st.requireFactory == st.requireFactory
      && r.st.injected <= st.injected + {subject.cls}
      && (r.result.Ok? ==>
            && subject.cls in r.st.injected
            && setterName in r.st.services && setterName in r.subject.received
            && r.subject.received[setterName] == r.st.services[setterName])
      && (forall n :: n in subject.received && n != setterName ==>
            n in r.subject.received && r.subject.received[n] == subject.received[n])
  {
    ResolveContract(st, setterName);
  }

  /** inject's loop keeps the invariant and undoes nothing; the receiver keeps its class. */
  lemma {:induction false} InjectMarkersValid(rt: Runtime, st: Store, className: string, subject: Subject,
                                             dependencies: seq<string>)
    requires Valid(st) && subject.Object?
    ensures var r := InjectMarkers(rt, st, className, subject, dependencies);
      Valid(r.st) && Grows(st, r.st) && r.subject.Object? && r.subject.cls == subject.cls
    decreases |dependencies|
  {
    if dependencies != [] {
      if IsFactoryInjection(dependencies[0]) {
        InjectMarkersValid(rt, st.(requireFactory := st.requireFactory + {className}), className, subject,
                           dependencies[1..]);
      } else {
        var step := InjectSetterDependency(rt, st, LastToken(dependencies[0]), subject);
        InjectSetterDependencyFacts(rt, st, LastToken(dependencies[0]), subject);
        if step.result.Ok? {
          InjectMarkersValid(rt, step.st, className, step.subject, dependencies[1..]);
        }
      }
    }
  }

  /**
   * The require-factory flag: inject only ever adds the given class name, and
   * after a successful inject the name is flagged exactly when it was before
   * or some marker was the factory marker.
   */
  lemma {:induction false} InjectMarkersFactoryFlag(rt: Runtime, st: Store, className: string, subject: Subject,
                                                   dependencies: seq<string>)
    requires subject.Object?
    ensures var r := InjectMarkers(rt, st, className, subject, dependencies);
      && r.st.requireFactory <= st.requireFactory + {className}
      && (className in r.st.requireFactory ==>
            className in st.requireFactory
            || exists i :: 0 <= i < |dependencies| && IsFactoryInjection(dependencies[i]))
      && (r.result.Ok? && (exists i :: 0 <= i < |dependencies| && IsFactoryInjection(dependencies[i])) ==>
            className in r.st.requireFactory)
    decreases |dependencies|
  {
    if dependencies != [] {
      var rest := dependencies[1..];
      assert forall i :: 0 <= i < |rest| ==> rest[i] == dependencies[i + 1];
      if IsFactoryInjection(dependencies[0]) {
        InjectMarkersFactoryFlag(rt, st.(requireFactory := st.requireFactory + {className}), className, subject, rest);
        FlagsGrow(rt, st.(requireFactory := st.requireFactory + {className}), className, subject, rest);
      } else {
        var step := InjectSetterDependency(rt, st, LastToken(dependencies[0]), subject);
        if step.result.Ok? {
          assert step.st.requireFactory == st.requireFactory;
          InjectMarkersFactoryFlag(rt, step.st, className, step.subject, rest);
        }
      }
    }
  }

  /**
   * The injected flag is keyed by the receiver's runtime class, not by the
   * class name inject was given, and set only when a setter was called: after
   * a successful inject the runtime class is flagged exactly when it was before
   * or some marker was not the factory marker.
   */
  lemma {:induction false} InjectMarkersInjectedFlag(rt: Runtime, st: Store, className: string, subject: Subject,
                                                    dependencies: seq<string>)
    requires subject.Object?
    ensures var r := InjectMarkers(rt, st, className, subject, dependencies);
      && r.st.injected <= st.injected + {subject.cls}
      && (subject.cls in r.st.injected ==>
            subject.cls in st.injected
            || exists i :: 0 <= i < |dependencies| && !IsFactoryInjection(dependencies[i]))
      && (r.result.Ok? && (exists i :: 0 <= i < |dependencies| && !IsFactoryInjection(dependencies[i])) ==>
            subject.cls in r.st.injected)
    decreases |dependencies|
  {
    if dependencies != [] {
      var rest := dependencies[1..];
      assert forall i :: 0 <= i < |rest| ==> rest[i] == dependencies[i + 1];
      if IsFactoryInjection(dependencies[0]) {
        InjectMarkersInjectedFlag(rt, st.(requireFactory := st.requireFactory + {className}), className, subject, rest);
      } else {
        var step := InjectSetterDependency(rt, st, LastToken(dependencies[0]), subject);
        if step.result.Ok? {
          InjectMarkersInjectedFlag(rt, step.st, className, step.subject, rest);
          FlagsGrow(rt, step.st, className, step.subject, rest);
        }
      }
    }
  }

  /**
   * inject flags only the receiver's runtime class as injected and only the
   * given name as requiring the factory; after success it has flagged the
   * first when the list holds an ordinary marker and the second when it holds
   * the factory marker.
   */
  lemma InjectFlagKeys(rt: Runtime, st: Store, className: string, cls: string, received: map<string, Value>)
    ensures var r := Inject(rt, st, className, Object(cls, received));
      && r.st.injected <= st.injected + {cls}
      && r.st.requireFactory <= st.requireFactory + {className}
      && (r.result.Ok? ==>
            var deps := ClassSetterDependencies(rt, st, className).result.value;
            && ((exists i :: 0 <= i < |deps| && !IsFactoryInjection(deps[i])) ==> cls in r.st.injected)
            && ((exists i :: 0 <= i < |deps| && IsFactoryInjection(deps[i])) ==> className in r.st.requireFactory))
  {
    var found := ClassSetterDependencies(rt, st, className);
    if found.result.Ok? {
      InjectMarkersInjectedFlag(rt, found.st, className, Object(cls, received), found.result.value);
      InjectMarkersFactoryFlag(rt, found.st, className, Object(cls, received), found.result.value);
    }
  }

  /** inject's loop only ever adds flags. */
  lemma {:induction false} FlagsGrow(rt: Runtime, st: Store, className: string, subject: Subject,
                                    dependencies: seq<string>)
    requires subject.Object?
    ensures var r := InjectMarkers(rt, st, className, subject, dependencies);
      st.requireFactory <= r.st.requireFactory && st.injected <= r.st.injected
    decreases |dependencies|
  {
    if dependencies != [] {
      if IsFactoryInjection(dependencies[0]) {
        FlagsGrow(rt, st.(requireFactory := st.requireFactory + {className}), className, subject, dependencies[1..]);
      } else {
        var step := InjectSetterDependency(rt, st, LastToken(dependencies[0]), subject);
        if step.result.Ok? {
          FlagsGrow(rt, step.st, className, step.subject, dependencies[1..]);
        }
      }
    }
  }

  /** The receiver got service `name` and it is the container's memoized one. */
  ghost predicate Delivered(st: Store, subject: Subject, name: string)
  {
    subject.Object? && name in st.services && name in subject.received
    && subject.received[name] == st.services[name]
  }

  lemma DeliveredStep(rt: Runtime, st: Store, setterName: string, subject: Subject, name: string)
    requires Valid(st) && subject.Object? && Delivered(st, subject, name)
    ensures var step := InjectSetterDependency(rt, st, setterName, subject);
      Valid(step.st) && Delivered(step.st, step.subject, name)
  {
    var step := InjectSetterDependency(rt, st, setterName, subject);
    ResolveContract(st, setterName);
    if name == setterName && step.result.Ok? {
      assert Resolve(st, setterName) == Step(st, Ok(st.services[name]));
    }
  }

  lemma {:induction false} DeliveredStays(rt: Runtime, st: Store, className: string, subject: Subject,
                                         dependencies: seq<string>, name: string)
    requires Valid(st) && subject.Object? && Delivered(st, subject, name)
    ensures var r := InjectMarkers(rt, st, className, subject, dependencies);
      Delivered(r.st, r.subject, name)
    decreases |dependencies|
  {
    if dependencies != [] {
      if IsFactoryInjection(dependencies[0]) {
        DeliveredStays(rt, st.(requireFactory := st.requireFactory + {className}), className, subject,
                       dependencies[1..], name);
      } else {
        var step := InjectSetterDependency(rt, st, LastToken(dependencies[0]), subject);
        DeliveredStep(rt, st, LastToken(dependencies[0]), subject, name);
        if step.result.Ok? {
          DeliveredStays(rt, step.st, className, step.subject, dependencies[1..], name);
        }
      }
    }
  }

  /**
   * After a successful inject, for every marker other than the factory
   * marker, the receiver's setter was given the container's memoized service
   * named by the marker's last segment.
   */
  lemma {:induction false} InjectMarkersDelivers(rt: Runtime, st: Store, className: string, subject: Subject,
                                                dependencies: seq<string>)
    requires Valid(st) && subject.Object?
    ensures var r := InjectMarkers(rt, st, className, subject, dependencies);
      r.result.Ok? ==>
        forall i :: 0 <= i < |dependencies| && !IsFactoryInjection(dependencies[i]) ==>
          Delivered(r.st, r.subject, LastToken(dependencies[i]))
    decreases |dependencies|
  {
    if dependencies != [] {
      var rest := dependencies[1..];
      assert forall i :: 0 < i < |dependencies| ==> dependencies[i] == rest[i - 1];
      if IsFactoryInjection(dependencies[0]) {
        InjectMarkersDelivers(rt, st.(requireFactory := st.requireFactory + {className}), className, subject, rest);
      } else {
        var name := LastToken(dependencies[0]);
        var step := InjectSetterDependency(rt, st, name, subject);
        InjectSetterDependencyFacts(rt, st, name, subject);
        if step.result.Ok? {
          InjectMarkersDelivers(rt, step.st, className, step.subject, rest);
          DeliveredStays(rt, step.st, className, step.subject, rest, name);
        }
      }
    }
  }

  /** inject keeps the container's invariant and undoes nothing. */
  lemma InjectValid(rt: Runtime, st: Store, className: string, subject: Subject)
    requires Valid(st)
    ensures var r := Inject(rt, st, className, subject);
      Valid(r.st) && Grows(st, r.st) && r.subject.Object? == subject.Object?
  {
    if subject.Object? {
      ClassSetterDependenciesContract(rt, st, className);
      var found := ClassSetterDependencies(rt, st, className);
      if found.result.Ok? {
        InjectMarkersValid(rt, found.st, className, subject, found.result.value);
        GrowsTransitive(st, found.st, Inject(rt, st, className, subject).st);
      }
    }
  }

  /** injectOnce does nothing for a class name already flagged injected, and is inject otherwise. */
  lemma InjectOnceContract(rt: Runtime, st: Store, className: string, subject: Subject)
    requires Valid(st)
    ensures var r := InjectOnce(rt, st, className, subject);
      && (className in st.injected ==> r == Run(st, subject, Ok(())))
      && (className !in st.injected ==> r == Inject(rt, st, className, subject))
      && Valid(r.st) && Grows(st, r.st)
  {
    InjectValid(rt, st, className, subject);
  }

  /**
   * The injected flag is per class, not per instance: once an instance whose
   * runtime class is C has received one setter dependency through
   * inject(C, ...), injectOnce(C, other) leaves any other instance untouched.
   */
  lemma InjectOnceIsPerClass(rt: Runtime, st: Store, cls: string, received: map<string, Value>, other: Subject)
    requires var found := ClassSetterDependencies(rt, st, cls);
      && found.result.Ok?
      && exists i :: 0 <= i < |found.result.value| && !IsFactoryInjection(found.result.value[i])
    requires Inject(rt, st, cls, Object(cls, received)).result.Ok?
    ensures var first := Inject(rt, st, cls, Object(cls, received));
      InjectOnce(rt, first.st, cls, other) == Run(first.st, other, Ok(()))
  {
    var found := ClassSetterDependencies(rt, st, cls);
    InjectMarkersInjectedFlag(rt, found.st, cls, Object(cls, received), found.result.value);
  }

  /**
   * A class whose markers are all the factory marker, or that has none, is
   * never flagged injected, so injectOnce runs inject for it every time.
   */
  lemma FactoryOnlyClassNeverInjected(rt: Runtime, st: Store, cls: string, received: map<string, Value>)
    requires cls !in st.injected
    requires var found := ClassSetterDependencies(rt, st, cls);
      && found.result.Ok?
      && forall i :: 0 <= i < |found.result.value| ==> IsFactoryInjection(found.result.value[i])
    ensures var r := Inject(rt, st, cls, Object(cls, received));
      cls !in r.st.injected
  {
    var found := ClassSetterDependencies(rt, st, cls);
    InjectMarkersInjectedFlag(rt, found.st, cls, Object(cls, received), found.result.value);
  }

  /** A class name not yet flagged, whose dependency list lacks the factory marker, stays unflagged. */
  lemma NoFactoryMarkerNoFlag(rt: Runtime, st: Store, className: string, subject: Subject)
    requires className !in st.requireFactory
    requires var found := ClassSetterDependencies(rt, st, className);
      found.result.Ok? && forall i :: 0 <= i < |found.result.value| ==> !IsFactoryInjection(found.result.value[i])
    ensures className !in Inject(rt, st, className, subject).st.requireFactory
  {
    if subject.Object? {
      var found := ClassSetterDependencies(rt, st, className);
      InjectMarkersFactoryFlag(rt, found.st, className, subject, found.result.value);
    }
  }

  /**
   * After a successful inject the receiver keeps its class and, for every
   * marker of its class name other than the factory marker, holds the
   * container's memoized service the marker names.
   */
  lemma InjectDelivers(rt: Runtime, st: Store, className: string, subject: Subject)
    requires Valid(st) && subject.Object?
    ensures var r := Inject(rt, st, className, subject);
      r.result.Ok? ==>
        && r.subject.Object? && r.subject.cls == subject.cls
        && var deps := ClassSetterDependencies(rt, st, className).result.value;
           forall i :: 0 <= i < |deps| && !IsFactoryInjection(deps[i]) ==>
             Delivered(r.st, r.subject, LastToken(deps[i]))
  {
    ClassSetterDependenciesContract(rt, st, className);
    var found := ClassSetterDependencies(rt, st, className);
    if found.result.Ok? {
      InjectMarkersValid(rt, found.st, className, subject, found.result.value);
      InjectMarkersDelivers(rt, found.st, className, subject, found.result.value);
    }
  }

  /** A successful inject whose dependency list holds the factory marker flags the class name as requiring the factory. */
  lemma FactoryMarkerRequiresFactory(rt: Runtime, st: Store, className: string, subject: Subject)
    requires subject.Object?
    requires var found := ClassSetterDependencies(rt, st, className);
      && found.result.Ok?
      && exists i :: 0 <= i < |found.result.value| && IsFactoryInjection(found.result.value[i])
    requires Inject(rt, st, className, subject).result.Ok?
    ensures className in Inject(rt, st, className, subject).st.requireFactory
  {
    var found := ClassSetterDependencies(rt, st, className);
    InjectMarkersFactoryFlag(rt, found.st, className, subject, found.result.value);
  }
}
