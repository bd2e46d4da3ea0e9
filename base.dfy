/**
 * Values, service closures and the error signals shared by the container and
 * the factory.
 */
module Base {

  /** A service closure, known only by its identity: its body is not modelled. */
  datatype Closure = Closure(id: nat)

  /** A value a service closure returned (a PHP object or scalar), compared by identity. */
  datatype Value = Value(id: nat)

  /** What invoking a closure yields: the model only needs it to depend on the closure alone. */
  function Produce(c: Closure): Value
  {
    Value(c.id)
  }

  /** One variant per exception class the core throws. */
  datatype Error =
    | DependencyServiceAlreadyRegistered(name: string)
    | UndefinedContainerDependency(name: string)
    | InstanceIsNotObject
    | UndefinedDependencySetter(setterMethod: string, setterName: string, receiverClass: string)
      // class_uses/class_parents return false for a class PHP cannot load, and array_keys(false) then throws a TypeError
    | ClassNotFound(className: string)
    | MissingFactoryAwareInterface(className: string)
    | UndefinedClass(className: string)
    | InstanceIsAbstractClass(className: string)
    | UnableToInstantiate(className: string)
      // PHP raises an Error when a method that the class lacks is called
    | UndefinedMethod(className: string, methodName: string)

  /** The outcome of an operation that may throw. */
  datatype Result<T> = Ok(value: T) | Err(error: Error)
}
