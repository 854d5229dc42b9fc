# TestServiceProvider: a verified model of the test framework's service facade

MyTested.Mvc lets application authors unit-test MVC controllers through a
fluent builder API. The builders get framework services through one static
facade, `TestServiceProvider`. It offers:

- guarded lookups in the ambient dependency-injection container: required, optional and collection;
- a helper that builds an instance through the framework's type-activator cache and turns every failure into null;
- a lookup of output formatters from the registered MVC options, memoised in a process-wide dictionary.

This project models that facade in Dafny and proves what its code and
documentation promise.

- `services.dfy` (module `Services`) holds the values involved.
  A runtime type is a `TypeId`.
  An object is an `Instance` that carries its runtime type and an identity.
  The configured container is `Container`: a single-service map and an all-services map.
  `MvcOptions` stands for the options `Value` with its possibly-null formatter list.
  `Result` covers a value and the two exceptions the validators raise: `ConfigError` and `NotFound`.
- `service_validator.dfy` (module `ServiceValidator`) holds the two guards: container configured, and service non-null.
- `test_service_provider.dfy` (module `Application`) holds the facade.
  The read-only static members are functions of the ambient container.
  `Option<Container>` is `None` when the test application never configured one.
  The static dictionary is the field `outputFormatters` of the class `TestServiceProvider`.
  `GetOutputFormatter` is a method that updates that field.
  The ghost field `scans` records each time a lookup reached the `FirstOrDefault` scan over the registered formatters.
  A miss that fails earlier (no container, no options accessor, a null `Value` or a null formatter list) is not recorded.
  `RegisteredFormatters` gives the formatter list that the chain `Value?.OutputFormatters?` reaches from the registered options accessor, or `None` when any link is missing or null.
  The contracts of `ResolveFormatter` and `GetOutputFormatter` are stated against it.

Collaborators the source calls but does not own are parameters:

- the container's contents;
- `optionsOf`, which reads the options accessor's `Value`;
- `create`, which stands for `ITypeActivatorCache.CreateInstance` and yields `None` when it throws or returns null.

The class invariant `Valid()` says that every cached formatter's runtime type
is the key it is cached under. `GetOutputFormatter` keeps it. So the cast back
to the requested formatter type cannot fail.

## Model

| member | source | states |
|---|---|---|
| `ServiceValidator.ValidateServices` | src/MyTested.Mvc/Internal/Application/TestServiceProvider.cs:28-34 | succeeds exactly when a container is configured, hands back that container, and never reports not-found |
| `ServiceValidator.ValidateServiceExists` | src/MyTested.Mvc/Internal/Application/TestServiceProvider.cs:35-36 | succeeds exactly when the resolved service is non-null, passes it through unchanged, and never reports a configuration error |
| `Application.GetRequiredService` | src/MyTested.Mvc/Internal/Application/TestServiceProvider.cs:27-38 | configuration error exactly when no container is configured; not-found exactly when the configured container lacks the type; otherwise exactly the container's instance for the type |
| `Application.GetService` | src/MyTested.Mvc/Internal/Application/TestServiceProvider.cs:40-49 | fails only, and always, when no container is configured, never with not-found; otherwise returns the container's instance when the type is registered and `None` exactly when it is not |
| `Application.GetServices` | src/MyTested.Mvc/Internal/Application/TestServiceProvider.cs:73-82 | fails only, and always, when no container is configured, never with not-found; otherwise returns the container's collection for the type; `None` exactly when the container resolves null, and an empty collection is passed through as is |
| `Application.RequiredServiceIsCheckedService` | src/MyTested.Mvc/Internal/Application/TestServiceProvider.cs:32-49 | the required lookup agrees with the optional one: the same configuration error; not-found exactly when the optional lookup yields `None`; the same instance otherwise |
| `Application.TryCreateInstance` | src/MyTested.Mvc/Internal/Application/TestServiceProvider.cs:95-112 | never raises; `None` when no container is configured or the activator cache is unregistered; otherwise exactly what the activator cache creates for the type, `None` included |
| `Application.FirstOfType` | src/MyTested.Mvc/Internal/Application/TestServiceProvider.cs:64 | `None` exactly when no formatter has the requested runtime type; otherwise the formatter at the first index whose runtime type is exactly the requested one |
| `Application.FirstOfTypeAppend` | src/MyTested.Mvc/Internal/Application/TestServiceProvider.cs:64 | on a list made of an earlier and a later part, a match in the earlier part wins and the later part is used only when the earlier has none |
| `Application.FirstOfTypeAt` | src/MyTested.Mvc/Internal/Application/TestServiceProvider.cs:64 | a formatter preceded by no formatter of its type is the one returned, whatever later formatters of the same type follow |
| `Application.ResolveFormatter` | src/MyTested.Mvc/Internal/Application/TestServiceProvider.cs:62-65 | configuration error exactly when no container is configured. Success exactly when the options accessor is registered, its value and formatter list are non-null, and some formatter has the requested type. The result is then the first such formatter, and its runtime type is the requested one |
| `Application.TestServiceProvider.constructor` | src/MyTested.Mvc/Internal/Application/TestServiceProvider.cs:18-19 | the cache starts empty and satisfies the invariant |
| `Application.TestServiceProvider.GetOutputFormatter` | src/MyTested.Mvc/Internal/Application/TestServiceProvider.cs:56-71 | keeps the invariant. A hit returns the cached entry with the cache and scan log unchanged, whatever the container. On a miss the formatter scan runs once when the options chain is non-null and not at all when it is not. A success adds exactly that key with the first match, and a failure leaves the cache unchanged. A success's runtime type is the requested one |
| `Application.GetOutputFormatterTwice` | src/MyTested.Mvc/Internal/Application/TestServiceProvider.cs:59-70 | after a failed lookup, a second lookup of the same type fails the same way and the table is unchanged; after a successful lookup, a second lookup of the same type returns the identical instance; the pair adds only that key, and scans exactly once when the type was not cached before and not at all when it was |

## Left out

- The real dependency-injection container, `IOptions<MvcOptions>` and `ITypeActivatorCache.CreateInstance` belong to the host framework. They are the `Container` maps and the `optionsOf` and `create` parameters, with no behaviour of their own.
- The `Current` property (line 25) reads the test application's container. It is the `current` argument that every function takes.
- TryGetService (lines 89-93) is not modelled. With a configured container it is the unguarded `Container.Lookup`. With no container, its result depends on how the framework's extension method handles a null provider, and that code is not visible.
- Exception messages are not modelled. `NotFound` does not carry the requested type's name, because the message text comes from `ServiceValidator`, which is not part of this model.
- C# generics and reflection are reduced to `TypeId` equality. The exact-type test `f.GetType() == typeof(TFormatter)` is `runtimeType == t` in the model. That equality also makes the final cast safe.
- Null entries inside the registered formatter list are not modelled. A null entry before the first match makes `f.GetType()` throw a `NullReferenceException` (line 64). That exception escapes `GetOutputFormatter` uncaught, a third failure kind that `Result` does not have. A null entry after the first match is never reached.
- The dictionary's `Add` would throw on a duplicate key, but cannot, because it runs only on a miss. It is a map update in the model.
- Concurrent calls are not modelled. The source's static dictionary has no lock, and the model covers single-threaded calls only.
