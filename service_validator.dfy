/** The two guards the facade runs before handing out a service. Only what
    the facade's documentation says of them is modelled: one raises when no
    container is configured, the other raises when a service resolved to
    null. Neither has any other effect.
 */
module ServiceValidator {
  import opened Services

  /** Raises a configuration error when the ambient container is unset;
      otherwise hands back the container it checked. */
  function ValidateServices(current: Option<Container>): (r: Result<Container>)
    ensures r.Ok? <==> current.Some?
    ensures r.Ok? ==> r.value == current.value
    ensures !r.NotFound?
  {
    match current
    case None => ConfigError
    case Some(container) => Ok(container)
  }

  /** Raises a not-found error when the resolved service is null; otherwise
      passes the service through unchanged. */
  function ValidateServiceExists<T>(service: Option<T>): (r: Result<T>)
    ensures r.Ok? <==> service.Some?
    ensures r.Ok? ==> r.value == service.value
    ensures !r.ConfigError?
  {
    match service
    case None => NotFound
    case Some(s) => Ok(s)
  }
}
