// The HRESULT and NTSTATUS outcomes the code returns, as symbolic values.
module Status {
  import opened Machine

  /** NTSTATUS values used by raw2dump and the offline dump tool. */
  datatype NtStatus =
    | STATUS_SUCCESS
    | STATUS_UNSUCCESSFUL
    | STATUS_BAD_DATA
    | STATUS_INVALID_PARAMETER
    | STATUS_NO_MEMORY
    | NtOther(code: u32)

  /** HRESULT values used by the service library and the generator. */
  datatype HResult =
    | S_OK
    | E_FAIL
    | E_INVALIDARG
    | E_UNEXPECTED
    | E_NOTIMPL
    | E_OUTOFMEMORY
    | E_BAD_DATA
    | E_NOTFOUND
    | E_POINTER
    | FromNt(nt: NtStatus)   // HRESULT_FROM_NT(nt)
    | HrOther(code: u32)

  predicate NtSuccess(s: NtStatus)
  {
    s == STATUS_SUCCESS || (s.NtOther? && s.code < 0x8000_0000)
  }

  predicate Succeeded(h: HResult)
  {
    match h
    case S_OK => true
    case FromNt(nt) => NtSuccess(nt)   // HRESULT_FROM_NT only adds the NT facility bit
    case HrOther(code) => code < 0x8000_0000
    case _ => false
  }
}
