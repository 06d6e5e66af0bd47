/** Error codes of trusimd.h and the trusimd_strerror lookup of trusimd.cpp. */
module ErrorCodes {

  const NOERR: int := 0
  const ENOMEM: int := 1
  const ETYPE: int := 2
  const EINDEX: int := 3
  const ECUDA: int := 4
  const EOPENCL: int := 5
  const ELLVM: int := 6
  const EAVAIL: int := 7

  /** What a fallible C entry point produces: either a value, or the code it
      stores into trusimd_errno before returning -1 (or, for trusimd_binop,
      the int it throws). */
  datatype Result<T> = Ok(value: T) | Err(code: int)

  /** The diagnostic strings the three backends keep for their last failure;
      their contents come from the compilers and drivers. */
  datatype BackendMessages = BackendMessages(llvm: string, cuda: string, opencl: string)

  const SuccessMessage: string := "Success"
  const TypeMessage: string := "Wrong type"
  const IndexMessage: string := "Index out of range"
  const AvailMessage: string := "Function or implementation not available"
  const UnknownMessage: string := "Unknown error code"

  /** trusimd_strerror. ENOMEM has no entry of its own. */
  function StrError(code: int, backend: BackendMessages): (msg: string)
    ensures code == ELLVM ==> msg == backend.llvm
    ensures code == ECUDA ==> msg == backend.cuda
    ensures code == EOPENCL ==> msg == backend.opencl
    ensures code !in {NOERR, ETYPE, EINDEX, EAVAIL, ELLVM, ECUDA, EOPENCL} ==> msg == UnknownMessage
  {
    if code == NOERR then SuccessMessage
    else if code == ETYPE then TypeMessage
    else if code == EINDEX then IndexMessage
    else if code == EAVAIL then AvailMessage
    else if code == ELLVM then backend.llvm
    else if code == ECUDA then backend.cuda
    else if code == EOPENCL then backend.opencl
    else UnknownMessage
  }

  /** Reads a fixed message back to the code it describes (ENOMEM included,
      since it falls to the unknown message); -1 for any other text. */
  function CodeOfMessage(msg: string): int {
    if msg == SuccessMessage then NOERR
    else if msg == TypeMessage then ETYPE
    else if msg == IndexMessage then EINDEX
    else if msg == AvailMessage then EAVAIL
    else -1
  }

  /** The fixed messages identify their codes: looking a code up and reading
      the message back gives the code again. */
  lemma StrErrorFixedRoundTrip(code: int, backend: BackendMessages)
    requires code in {NOERR, ETYPE, EINDEX, EAVAIL}
    ensures CodeOfMessage(StrError(code, backend)) == code
  {
  }

  /** Allocation failure is reported as an unknown code. */
  lemma StrErrorNoMemIsUnknown(backend: BackendMessages)
    ensures StrError(ENOMEM, backend) == UnknownMessage
    ensures CodeOfMessage(StrError(ENOMEM, backend)) == -1
  {
  }
}
