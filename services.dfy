/** The values the service facade works with: type identities, the objects a
    dependency-injection container hands out, the container itself, the MVC
    options object, and the failure-compatible result of a lookup. The
    container, the options and the activator belong to the host framework;
    they appear here only as the data the facade reads from them.
 */
module Services {

  /** A runtime type, identified by its full name; two types are the same
      exactly when their names are equal. */
  datatype TypeId = TypeId(fullName: string)

  /** An object: its runtime type (what `GetType()` returns) and an identity,
      so that "the same instance" is an equality on values. */
  datatype Instance = Instance(runtimeType: TypeId, id: nat)

  datatype Option<+T> = None | Some(value: T)

  /** A configured container: what resolving a single service of a type
      gives, and what resolving all services of a type gives. A type missing
      from a map is one the container resolves to null. */
  datatype Container = Container(
    services: map<TypeId, Instance>,
    collections: map<TypeId, seq<Instance>>)
  {
    /** The container's own single-service lookup. */
    function Lookup(t: TypeId): (r: Option<Instance>) {
      if t in services then Some(services[t]) else None
    }

    /** The container's own all-services lookup. */
    function LookupAll(t: TypeId): (r: Option<seq<Instance>>) {
      if t in collections then Some(collections[t]) else None
    }
  }

  /** The `Value` of the registered `IOptions<MvcOptions>`: its list of output
      formatters in registration order, or `None` when that list is null. */
  datatype MvcOptions = MvcOptions(outputFormatters: Option<seq<Instance>>)

  /** The type under which the MVC options accessor is registered. */
  const MvcOptionsAccessorType: TypeId :=
    TypeId("Microsoft.Extensions.Options.IOptions<Microsoft.AspNetCore.Mvc.MvcOptions>")

  /** The type under which the framework's type-activator cache is registered. */
  const TypeActivatorCacheType: TypeId :=
    TypeId("Microsoft.AspNetCore.Mvc.Internal.ITypeActivatorCache")

  /** The outcome of a facade call that may raise: a value, or one of the two
      exceptions the validators raise (the container was never configured;
      a required service resolved to null). */
  datatype Result<+T> = Ok(value: T) | ConfigError | NotFound
  {
    predicate IsFailure() {
      !Ok?
    }

    function PropagateFailure<U>(): (r: Result<U>)
      requires IsFailure()
      ensures r.ConfigError? == ConfigError? && r.NotFound? == NotFound?
    {
      if ConfigError? then ConfigError else NotFound
    }

    function Extract(): (r: T)
      requires Ok?
    {
      value
    }
  }
}
