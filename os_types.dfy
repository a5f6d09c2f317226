/** Vocabulary shared by the OS abstraction layer and the component framework:
    status codes, execution levels, and the two ways an operation can end. */
module OsTypes {

  /** OS_ERR_TYPE: the status codes the services return or panic with. */
  datatype OsErr = Ok | Err | ErrBusy | ErrTimeout | ErrNotAllowed | ErrUnknown

  /** T_EXEC_LEVEL: the context the caller runs in, as reported by _getExecLevel. */
  datatype ExecLevel = Isr | Fiber | Task

  datatype Option<T> = None | Some(value: T)

  /** A service either returns normally or halts the system with `panic(code)`. */
  datatype Outcome<T> = Return(value: T) | Panic(code: OsErr)
}
