/** Result types shared by the organization store and the membership coordinator.

    The services signal failure in three ways that callers must keep apart:
    a permission denial raised before anything is read or written, a
    not-found raised after a failed lookup, and an error from the store
    itself (a violated uniqueness or foreign-key constraint). The membership
    helpers additionally answer `false` for a swallowed store error; that soft
    channel is `Ok(false)` and is never confused with `PermissionDenied`.
 */
module Outcomes {

  datatype Option<+T> = None | Some(value: T)

  datatype Outcome<+T> =
    | Ok(value: T)
    | PermissionDenied(subject: int, action: string, resource: string)
    | NotFound
    | StoreError(reason: string)

  /** The text a permission denial renders to, as the tests match it. */
  function DeniedMessage(action: string, resource: string): (m: string)
    ensures |m| == |action| + |resource| + 34
    ensures m[..27] == "Not authorized to perform `"
    ensures m[27..27 + |action|] == action
    ensures m[|m| - |resource| - 1..|m| - 1] == resource
  {
    "Not authorized to perform `" + action + "` on `" + resource + "`"
  }
}
