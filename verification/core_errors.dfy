/** The repository and service errors: each constructor fixes the status code, error code and
    error type, builds the detail message and adds its own keys to the caller's extras (the
    caller's keys come first, in insertion order, and are overwritten on a clash). */
module CoreErrors {
  import opened Wrappers
  import Dict
  import opened PyValue
  import Uuids
  import opened Errors

  /** `ModelNotFoundException(model, model_id)`: 404 `MODEL_NOT_FOUND`. */
  function ModelNotFound(model: string, modelId: Option<Uuids.Uuid> := None,
                         headers: Option<Headers> := None, extras: Option<Extras> := None): (r: CoreException)
    ensures r.statusCode == 404 && r.errorCode == "MODEL_NOT_FOUND" && r.errorType == "ModelNotFoundException"
    ensures modelId.Some? ==>
              r.detail == "Unable to find the " + model + " with id " + Uuids.ToString(modelId.value) + "."
    ensures modelId.None? ==> r.detail == model + " id not found."
    ensures Dict.Get(r.extras, "resource") == Some(Str(model))
    ensures modelId.Some? ==> Dict.Get(r.extras, "id") == Some(Str(Uuids.ToString(modelId.value)))
    ensures modelId.None? ==> Dict.Get(r.extras, "id") == Dict.Get(ExtrasOrEmpty(extras), "id")
    ensures Dict.KeysUnique(ExtrasOrEmpty(extras)) ==> Dict.KeysUnique(r.extras)
  {
    var detail :=
      if modelId.Some? then "Unable to find the " + model + " with id " + Uuids.ToString(modelId.value) + "."
      else model + " id not found.";
    var base := ExtrasOrEmpty(extras);
    var withId := if modelId.Some? then Dict.Put(base, "id", Str(Uuids.ToString(modelId.value))) else base;
    var x := Dict.Put(withId, "resource", Str(model));
    Dict.PutOther(withId, "resource", Str(model), "id");
    Make("ModelNotFoundException", 404, detail, "MODEL_NOT_FOUND", Some("ModelNotFoundException"), Some(x), headers)
  }

  /** Adds three keys in order, as `dict.update({k1: v1, k2: v2, k3: v3})` does. */
  function Put3(d: Extras, k1: string, v1: Value, k2: string, v2: Value, k3: string, v3: Value): (r: Extras)
    requires k1 != k2 && k1 != k3 && k2 != k3
    ensures Dict.Get(r, k1) == Some(v1) && Dict.Get(r, k2) == Some(v2) && Dict.Get(r, k3) == Some(v3)
    ensures forall k | k != k1 && k != k2 && k != k3 :: Dict.Get(r, k) == Dict.Get(d, k)
    ensures Dict.KeysUnique(d) ==> Dict.KeysUnique(r)
  {
    var a := Dict.Put(d, k1, v1);
    var b := Dict.Put(a, k2, v2);
    var c := Dict.Put(b, k3, v3);
    Dict.PutOther(a, k2, v2, k1);
    Dict.PutOther(b, k3, v3, k1);
    Dict.PutOther(b, k3, v3, k2);
    assert forall k | k != k1 && k != k2 && k != k3 :: Dict.Get(c, k) == Dict.Get(d, k) by {
      forall k | k != k1 && k != k2 && k != k3
        ensures Dict.Get(c, k) == Dict.Get(d, k)
      {
        Dict.PutOther(d, k1, v1, k);
        Dict.PutOther(a, k2, v2, k);
        Dict.PutOther(b, k3, v3, k);
      }
    }
    c
  }

  /** Adds one key, keeping every other key's value. */
  function Put1(d: Extras, k1: string, v1: Value): (r: Extras)
    ensures Dict.Get(r, k1) == Some(v1)
    ensures forall k | k != k1 :: Dict.Get(r, k) == Dict.Get(d, k)
    ensures Dict.KeysUnique(d) ==> Dict.KeysUnique(r)
  {
    var r := Dict.Put(d, k1, v1);
    assert forall k | k != k1 :: Dict.Get(r, k) == Dict.Get(d, k) by {
      forall k | k != k1
        ensures Dict.Get(r, k) == Dict.Get(d, k)
      {
        Dict.PutOther(d, k1, v1, k);
      }
    }
    r
  }

  /** `ModelFieldNotFoundException(model, field, value)`: 404 `MODEL_FIELD_NOT_FOUND`. */
  function ModelFieldNotFound(model: string, field: string, value: Value,
                              headers: Option<Headers> := None, extras: Option<Extras> := None): (r: CoreException)
    ensures r.statusCode == 404 && r.errorCode == "MODEL_FIELD_NOT_FOUND"
    ensures r.errorType == "ModelFieldNotFoundException"
    ensures r.detail == "Unable to find the " + model + " with " + field + " equal to " + ToStr(value) + "."
    ensures Dict.Get(r.extras, "resource") == Some(Str(model))
    ensures Dict.Get(r.extras, "field") == Some(Str(field))
    ensures Dict.Get(r.extras, "value") == Some(value)
  {
    var x := Put3(ExtrasOrEmpty(extras), "resource", Str(model), "field", Str(field), "value", value);
    Make("ModelFieldNotFoundException", 404,
         "Unable to find the " + model + " with " + field + " equal to " + ToStr(value) + ".",
         "MODEL_FIELD_NOT_FOUND", Some("ModelFieldNotFoundException"), Some(x), headers)
  }

  /** `ModelAlreadyExistsError(model, field, message)`: 409 `MODEL_ALREADY_EXISTS`. */
  function ModelAlreadyExists(model: string, field: string, message: string,
                              headers: Option<Headers> := None, extras: Option<Extras> := None): (r: CoreException)
    ensures r.statusCode == 409 && r.errorCode == "MODEL_ALREADY_EXISTS" && r.errorType == "ModelAlreadyExistsError"
    ensures r.detail == "Model " + model + " with " + field + " already exists: " + message
    ensures Dict.Get(r.extras, "resource") == Some(Str(model))
    ensures Dict.Get(r.extras, "field") == Some(Str(field))
    ensures Dict.Get(r.extras, "message") == Some(Str(message))
  {
    var x := Put3(ExtrasOrEmpty(extras), "resource", Str(model), "field", Str(field), "message", Str(message));
    Make("ModelAlreadyExistsError", 409, "Model " + model + " with " + field + " already exists: " + message,
         "MODEL_ALREADY_EXISTS", Some("ModelAlreadyExistsError"), Some(x), headers)
  }

  /** `ValidationError(field, message)`: 422, code `VALIDATION_ERROR` unless overridden. The
      field is a name or a list of names; the detail shows it with `str`. */
  function Validation(field: Value, message: string, errorCode: string := "VALIDATION_ERROR",
                      headers: Option<Headers> := None, extras: Option<Extras> := None): (r: CoreException)
    ensures r.statusCode == 422 && r.errorCode == errorCode && r.errorType == "ValidationError"
    ensures r.detail == "Validation error in " + ToStr(field) + ": " + message
    ensures Dict.Get(r.extras, "field") == Some(field)
    ensures Dict.Get(r.extras, "message") == Some(Str(message))
  {
    var a := Put1(ExtrasOrEmpty(extras), "field", field);
    var x := Put1(a, "message", Str(message));
    Make("ValidationError", 422, "Validation error in " + ToStr(field) + ": " + message,
         errorCode, Some("ValidationError"), Some(x), headers)
  }

  /** `SortingFieldNotFoundError(field)`: 400 `SORTING_FIELD_NOT_FOUND`. */
  function SortingFieldNotFound(field: string, headers: Option<Headers> := None,
                                extras: Option<Extras> := None): (r: CoreException)
    ensures r.statusCode == 400 && r.errorCode == "SORTING_FIELD_NOT_FOUND"
    ensures r.errorType == "SortingFieldNotFoundError"
    ensures r.detail == "Failed to find a field to sort: " + field
    ensures Dict.Get(r.extras, "field") == Some(Str(field))
  {
    Make("SortingFieldNotFoundError", 400, "Failed to find a field to sort: " + field,
         "SORTING_FIELD_NOT_FOUND", Some("SortingFieldNotFoundError"),
         Some(Put1(ExtrasOrEmpty(extras), "field", Str(field))), headers)
  }

  /** `FileNotFound(path)`: 404 `FILE_NOT_FOUND`. */
  function FileNotFound(path: string, headers: Option<Headers> := None,
                        extras: Option<Extras> := None): (r: CoreException)
    ensures r.statusCode == 404 && r.errorCode == "FILE_NOT_FOUND" && r.errorType == "FileNotFound"
    ensures r.detail == "File " + path + " not found."
    ensures Dict.Get(r.extras, "path") == Some(Str(path))
  {
    Make("FileNotFound", 404, "File " + path + " not found.", "FILE_NOT_FOUND", Some("FileNotFound"),
         Some(Put1(ExtrasOrEmpty(extras), "path", Str(path))), headers)
  }

  /** `ExternalServiceError`: status 500 unless given; the service, method and endpoint are added
      to extras. Every subclass keeps the error type `ExternalServiceError`. */
  function ExternalService(service: string, httpMethod: string, endpoint: string, detail: string,
                           errorCode: string, statusCode: int := 500,
                           extras: Option<Extras> := None, headers: Option<Headers> := None): (r: CoreException)
    ensures r.statusCode == statusCode && r.errorCode == errorCode && r.detail == detail
    ensures r.errorType == "ExternalServiceError"
    ensures Dict.Get(r.extras, "service") == Some(Str(service))
    ensures Dict.Get(r.extras, "method") == Some(Str(httpMethod))
    ensures Dict.Get(r.extras, "endpoint") == Some(Str(endpoint))
    ensures forall k | k != "service" && k != "method" && k != "endpoint" ::
              Dict.Get(r.extras, k) == Dict.Get(ExtrasOrEmpty(extras), k)
  {
    var x := Put3(ExtrasOrEmpty(extras), "service", Str(service), "method", Str(httpMethod), "endpoint", Str(endpoint));
    Make("ExternalServiceError", statusCode, detail, errorCode, Some("ExternalServiceError"), Some(x), headers)
  }

  /** The five kinds of external-service failure with their own status and code. */
  datatype ExternalKind = Timeout | NotFound | Unauthorized | Forbidden | Conflict

  function ExternalStatus(k: ExternalKind): int {
    match k
    case Timeout => 504
    case NotFound => 404
    case Unauthorized => 401
    case Forbidden => 403
    case Conflict => 409
  }

  function ExternalCode(k: ExternalKind): string {
    match k
    case Timeout => "SERVICE_TIMEOUT"
    case NotFound => "EXTERNAL_RESOURCE_NOT_FOUND"
    case Unauthorized => "EXTERNAL_UNAUTHORIZED"
    case Forbidden => "EXTERNAL_FORBIDDEN"
    case Conflict => "EXTERNAL_CONFLICT"
  }

  function ExternalDefaultDetail(k: ExternalKind): string {
    match k
    case Timeout => "Service request timed out"
    case NotFound => "Resource not found in external service"
    case Unauthorized => "Unauthorized access to external service"
    case Forbidden => "Forbidden access to external service"
    case Conflict => "Conflict with external service resource"
  }

  /** The `ExternalService…Error` subclasses: the detail defaults per kind. */
  function ExternalServiceOf(k: ExternalKind, service: string, httpMethod: string, endpoint: string,
                             detail: Option<string> := None, extras: Option<Extras> := None,
                             headers: Option<Headers> := None): (r: CoreException)
    ensures r.statusCode == ExternalStatus(k) && r.errorCode == ExternalCode(k)
    ensures r.errorType == "ExternalServiceError"
    ensures detail.Some? ==> r.detail == detail.value
    ensures detail.None? ==> r.detail == ExternalDefaultDetail(k)
    ensures Dict.Get(r.extras, "service") == Some(Str(service))
    ensures Dict.Get(r.extras, "method") == Some(Str(httpMethod))
    ensures Dict.Get(r.extras, "endpoint") == Some(Str(endpoint))
  {
    ExternalService(service, httpMethod, endpoint, detail.GetOr(ExternalDefaultDetail(k)),
                    ExternalCode(k), ExternalStatus(k), extras, headers)
  }

  /** Each external-service subclass has its own status code and its own error code. */
  lemma ExternalKindsDistinct(k: ExternalKind, j: ExternalKind)
    requires k != j
    ensures ExternalStatus(k) != ExternalStatus(j)
    ensures ExternalCode(k) != ExternalCode(j)
  {
  }
}
