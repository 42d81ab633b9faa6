/**
 * The activity's method-call handlers on the "ghostty/secure" and "ghostty/media"
 * channels: which method names are handled, which reply each call gets and which
 * platform action it starts.  The actions themselves (window flags, media store
 * scans and deletions) are platform calls and are only named here.
 */
module ChannelDispatch {
  import opened Wrappers

  datatype Channel = Secure | Media

  /** The value passed to `result.success(...)`. */
  datatype ReplyValue = NullValue | BoolValue(b: bool)

  /**
   * The answer to a call.  `AnswerAfterScan` is a scan whose reply comes later,
   * from the media scanner's completion callback.
   */
  datatype Reply = Success(value: ReplyValue) | NotImplemented | AnswerAfterScan

  /** The platform action a call starts. */
  datatype Effect = NoEffect | EnableSecureMode | DisableSecureMode | DeleteMediaEntry(path: string) | ScanFile(path: string)

  datatype Outcome = Outcome(reply: Reply, effect: Effect)

  const SecureMethods: set<string> := {"enableSecureMode", "disableSecureMode"}
  const MediaMethods: set<string> := {"notifyMediaDeleted", "scanFile"}

  function HandledMethods(channel: Channel): set<string>
  {
    match channel
    case Secure => SecureMethods
    case Media => MediaMethods
  }

  /** The "ghostty/secure" handler: both toggles answer `success(null)`. */
  function SecureCall(name: string): (o: Outcome)
    ensures name == "enableSecureMode" ==> o == Outcome(Success(NullValue), EnableSecureMode)
    ensures name == "disableSecureMode" ==> o == Outcome(Success(NullValue), DisableSecureMode)
    ensures o.reply == NotImplemented <==> name !in SecureMethods
    ensures o.reply != NotImplemented ==> o.reply == Success(NullValue)
  {
    if name == "enableSecureMode" then Outcome(Success(NullValue), EnableSecureMode)
    else if name == "disableSecureMode" then Outcome(Success(NullValue), DisableSecureMode)
    else Outcome(NotImplemented, NoEffect)
  }

  /**
   * The "ghostty/media" handler.  `path` is the call's "path" argument, `None`
   * when it is missing or null.
   */
  function MediaCall(name: string, path: Option<string>): (o: Outcome)
    ensures name == "notifyMediaDeleted" && path.Some? ==> o == Outcome(Success(BoolValue(true)), DeleteMediaEntry(path.value))
    ensures name == "scanFile" && path.Some? ==> o == Outcome(AnswerAfterScan, ScanFile(path.value))
    ensures o.reply == NotImplemented <==> name !in MediaMethods
    ensures o.effect.ScanFile? ==> path == Some(o.effect.path)
    ensures o.effect.DeleteMediaEntry? ==> path == Some(o.effect.path)
  {
    if name == "notifyMediaDeleted" then
      Outcome(Success(BoolValue(true)), if path.Some? then DeleteMediaEntry(path.value) else NoEffect)
    else if name == "scanFile" then
      if path.Some? then Outcome(AnswerAfterScan, ScanFile(path.value))
      else Outcome(Success(BoolValue(false)), NoEffect)
    else Outcome(NotImplemented, NoEffect)
  }

  /** A call arriving on either channel, routed to that channel's handler. */
  function Dispatch(channel: Channel, name: string, path: Option<string>): (o: Outcome)
    ensures o.reply == NotImplemented <==> name !in HandledMethods(channel)
    ensures o.effect.EnableSecureMode? || o.effect.DisableSecureMode? ==> channel == Secure
    ensures o.effect.ScanFile? || o.effect.DeleteMediaEntry? ==> channel == Media
  {
    match channel
    case Secure => SecureCall(name)
    case Media => MediaCall(name, path)
  }

  /** On both channels a method outside the handled set is answered "not implemented" and does nothing. */
  lemma UnknownMethodNotImplemented(channel: Channel, name: string, path: Option<string>)
    requires name !in HandledMethods(channel)
    ensures Dispatch(channel, name, path) == Outcome(NotImplemented, NoEffect)
  {
  }

  /** A scan request without a path answers `success(false)` at once and scans nothing. */
  lemma ScanWithoutPath()
    ensures MediaCall("scanFile", None) == Outcome(Success(BoolValue(false)), NoEffect)
  {
  }

  /** A deletion notice always answers `success(true)`, with or without a path; only a path triggers the deletion. */
  lemma DeletionAlwaysSucceeds(path: Option<string>)
    ensures MediaCall("notifyMediaDeleted", path).reply == Success(BoolValue(true))
    ensures MediaCall("notifyMediaDeleted", path).effect != NoEffect <==> path.Some?
  {
  }

  /** Only a scan with a path defers its answer to the scanner; every other call is answered at once. */
  lemma OnlyScansAnswerLater(channel: Channel, name: string, path: Option<string>)
    ensures var o := Dispatch(channel, name, path);
      o.reply.AnswerAfterScan? <==> channel == Media && name == "scanFile" && path.Some?
  {
  }
}
