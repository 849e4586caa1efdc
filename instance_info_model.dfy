/** The front end's view of `GET /instance`: every data field optional, plus
    an optional error message and the derived `HasError` flag. */
module InstanceInfoModel {
  import opened Results

  datatype InstanceInfoViewModel = InstanceInfoViewModel(
    instanceId: Option<string>,
    hostname: Option<string>,
    startupTime: Option<int>,
    uptime: Option<string>,
    errorMessage: Option<string>)
  {
    /** `HasError => !string.IsNullOrEmpty(ErrorMessage)`. */
    predicate HasError()
    {
      !IsNullOrEmpty(errorMessage)
    }
  }

  /** `new InstanceInfoViewModel()`: every property left at its default. */
  function Empty(): (v: InstanceInfoViewModel)
    ensures v.instanceId.None? && v.hostname.None? && v.startupTime.None? && v.uptime.None?
    ensures v.errorMessage.None? && !v.HasError()
  {
    InstanceInfoViewModel(None, None, None, None, None)
  }

  /** The flag is set exactly when a non-empty message is present: a null or
      an empty message both read as "no error". */
  lemma HasErrorIffMessage(v: InstanceInfoViewModel)
    ensures v.HasError() <==> v.errorMessage.Some? && |v.errorMessage.value| > 0
    ensures v.errorMessage.None? ==> !v.HasError()
    ensures v.errorMessage == Some("") ==> !v.HasError()
  {
  }

  /** Changing the data fields never changes the flag. */
  lemma HasErrorIgnoresData(v: InstanceInfoViewModel, w: InstanceInfoViewModel)
    requires v.errorMessage == w.errorMessage
    ensures v.HasError() == w.HasError()
  {
  }
}
