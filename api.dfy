/** Values shared by every resource model: optional values, the vendor SDK's
    errors and responses, Terraform diagnostics, and the resource-data handle
    whose identifier the lifecycle operations set and clear. */
module Api {

  datatype Option<+T> = None | Some(value: T)

  datatype Result<+T> = Ok(value: T) | Err(message: string)

  /** An error returned by a vendor SDK call. `status` is the HTTP status code
      of the response that came with it, and None when there was no response
      at all (a transport failure). */
  datatype ApiError = ApiError(status: Option<int>, message: string)

  /** What one SDK call gives back: the entity, or an error. */
  datatype Response<+T> = Found(entity: T) | Failed(error: ApiError)

  /** The provider's 404 test: there is a response and its status is 404. */
  predicate IsStatus404(e: ApiError) {
    e.status == Some(404)
  }

  /** The optimistic-concurrency conflict test used to decide whether an
      action-map patch is retried (taken to be status 409). */
  predicate IsVersionMismatch(e: ApiError) {
    e.status == Some(409)
  }

  /** Terraform diagnostics as these operations produce them: none, or one error. */
  datatype Diagnostics = NoError | Error(summary: string)

  /** `stringmap.GetNonDefaultValue[string]`: the value of `key` in a nested
      block, or None when it is absent or holds the zero value "". */
  function GetNonDefault(m: map<string, string>, key: string): Option<string> {
    if key in m && m[key] != "" then Some(m[key]) else None
  }

  /** The part of Terraform's `schema.ResourceData` that the lifecycle
      operations change: the resource identifier ("" means "does not exist"). */
  class ResourceData {
    var id: string

    constructor (id: string)
      ensures this.id == id
    {
      this.id := id;
    }

    method SetId(v: string)
      modifies this
      ensures id == v
    {
      id := v;
    }
  }
}
