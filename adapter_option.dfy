/** Validation of the d3d11-adapter option (d3d11_validate_adapter): the empty
    value is accepted, "help" lists the adapters and asks the option parser to
    exit, and any other value is accepted exactly when an adapter matches it.
    Adapter enumeration is a collaborator, given here as the predicate
    `matches` (what the enumerator answers when asked to verify a name). */
module AdapterOption {

  /** The three outcomes, kept apart instead of sharing one status-code space. */
  datatype Validation = Accepted | ExitAfterHelp | Invalid

  /** Status codes of the option parser (m_option.h). */
  const M_OPT_INVALID: int := -3
  const M_OPT_EXIT: int := -6

  /** The status code the validator returns for each outcome. */
  function StatusCode(v: Validation): (code: int)
    ensures code == 0 <==> v == Accepted
    ensures code < 0 <==> v != Accepted
    ensures code == M_OPT_EXIT <==> v == ExitAfterHelp
    ensures code == M_OPT_INVALID <==> v == Invalid
  {
    match v
    case Accepted => 0
    case ExitAfterHelp => M_OPT_EXIT
    case Invalid => M_OPT_INVALID
  }

  /** d3d11_validate_adapter, as an outcome. */
  function ValidateAdapter(param: string, matches: string -> bool): (v: Validation)
    ensures v == ExitAfterHelp <==> param == "help"
    ensures v == Accepted <==> param == "" || (param != "help" && matches(param))
    ensures v == Invalid ==> param != "" && !matches(param)
  {
    if param == "" then Accepted
    else if param == "help" then ExitAfterHelp
    else if matches(param) then Accepted
    else Invalid
  }

  /** d3d11_validate_adapter, as the status code the option parser receives. */
  function ValidateAdapterStatus(param: string, matches: string -> bool): (code: int)
    ensures code == 0 <==> param == "" || (param != "help" && matches(param))
    ensures code == M_OPT_EXIT <==> param == "help"
    ensures code == M_OPT_INVALID <==> param != "" && param != "help" && !matches(param)
  {
    StatusCode(ValidateAdapter(param, matches))
  }

  /** The empty value is accepted without consulting the adapters; "help"
      exits whatever the adapters are; any other value is accepted exactly
      when an adapter matches it and is invalid otherwise. */
  lemma ValidationOutcomes(param: string, matches: string -> bool)
    ensures param == "" ==> ValidateAdapter(param, matches) == Accepted
    ensures param == "help" ==> ValidateAdapter(param, matches) == ExitAfterHelp
    ensures param != "" && param != "help" ==>
              (ValidateAdapter(param, matches) == Accepted <==> matches(param))
              && (ValidateAdapter(param, matches) == Invalid <==> !matches(param))
  {
  }
}
