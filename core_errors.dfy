/** The error-frame chain of `src/lib/EXAMPLE_CORE/errors.ts`. An
    `AppError` carries an append-only list of frames, innermost first; the
    newest frame is the one shown to users. Every operation builds a new
    value and never changes its argument. The clock that stamps frames is
    the parameter `now`. */
module CoreErrors {
  import opened Wrappers
  import opened Json

  datatype Layer = DAL | AI | SERVICE | ENDPOINT | LOAD | UI

  function LayerName(l: Layer): string {
    match l
    case DAL => "DAL"
    case AI => "AI"
    case SERVICE => "SERVICE"
    case ENDPOINT => "ENDPOINT"
    case LOAD => "LOAD"
    case UI => "UI"
  }

  /** One frame of the chain; `message` and `timestamp` are optional. */
  datatype Frame = Frame(layer: Layer, code: string, message: Option<string>, context: Record, timestamp: Option<string>)

  /** `{ kind: 'App_Error', frames, dev_message, origin }`; an absent origin is `Undefined`. */
  datatype AppError = AppError(frames: seq<Frame>, devMessage: Option<string>, origin: Thrown)

  /** What a `catch` clause can receive. `Foreign` is any object whose
      `kind` is not 'App_Error' (an `Error`, a database error object) and
      keeps only its `message` property; `Scalar` is a thrown boolean,
      number or string. */
  datatype Thrown =
    | Undefined
    | NullValue
    | Scalar
    | Foreign(message: Option<string>)
    | AppErr(error: AppError)

  const DefaultUserMessage := "An unexpected error occurred"

  /** `x || fallback` for an optional string. */
  function OrElse(s: Option<string>, fallback: string): (r: string)
    ensures s.Some? && s.value != "" ==> r == s.value
    ensures s.None? || s.value == "" ==> r == fallback
  {
    if s.Some? && s.value != "" then s.value else fallback
  }

  function Stamp(frame: Frame, now: string): (f: Frame)
    ensures f.timestamp == Some(now)
    ensures f.(timestamp := frame.timestamp) == frame
  {
    frame.(timestamp := Some(now))
  }

  /** create_app_error: a fresh chain holding the one stamped frame. */
  function CreateAppError(frame: Frame, now: string, origin: Thrown): (e: AppError)
    ensures e.frames == [Stamp(frame, now)]
    ensures e.devMessage == frame.message && e.origin == origin
  {
    AppError([frame.(timestamp := Some(now))], frame.message, origin)
  }

  /** push_error_frame: the old frames, then the new stamped frame; the
      developer message and the origin are kept. */
  function PushErrorFrame(err: AppError, frame: Frame, now: string): (e: AppError)
    ensures |e.frames| == |err.frames| + 1
    ensures e.frames[..|err.frames|] == err.frames
    ensures e.frames[|err.frames|] == Stamp(frame, now)
    ensures e.devMessage == err.devMessage && e.origin == err.origin
  {
    err.(frames := err.frames + [frame.(timestamp := Some(now))])
  }

  /** is_app_error: the duck-typed `kind === 'App_Error'` test. */
  predicate IsAppError(err: Thrown) {
    err.AppErr?
  }

  /** `(err as Error)?.message`. */
  function MessageOf(err: Thrown): Option<string> {
    if err.Foreign? then err.message else None
  }

  /** handle_error, with the handler's layer restricted to ENDPOINT or LOAD
      as its TypeScript signature does. */
  function HandleError(err: Thrown, layer: Layer, code: string, context: Record, now: string): (e: AppError)
    requires layer == ENDPOINT || layer == LOAD
    ensures IsAppError(err) ==>
      var old_frames := err.error.frames;
      var inherited := if |old_frames| > 0 then old_frames[|old_frames| - 1].message else None;
      e == PushErrorFrame(err.error, Frame(layer, code, Some(OrElse(inherited, "Propagated error")), context, None), now)
    ensures !IsAppError(err) ==>
      e.frames == [Frame(layer, code, Some(OrElse(MessageOf(err), "Unknown error")), context, Some(now))]
      && e.devMessage == Some(OrElse(MessageOf(err), "Unknown error"))
      && e.origin == err
  {
    if err.AppErr? then
      var frames := err.error.frames;
      var message := if |frames| > 0 && frames[|frames| - 1].message.Some? && frames[|frames| - 1].message.value != ""
        then frames[|frames| - 1].message.value else "Propagated error";
      PushErrorFrame(err.error, Frame(layer, code, Some(message), context, None), now)
    else
      var message := if err.Foreign? && err.message.Some? && err.message.value != "" then err.message.value else "Unknown error";
      CreateAppError(Frame(layer, code, Some(message), context, None), now, err)
  }

  /** get_user_friendly_message: the newest frame's message, or the default.
      The source reads the last frame without checking that there is one. */
  function UserFriendlyMessage(err: AppError): (m: string)
    requires |err.frames| > 0
    ensures m != ""
    ensures m == DefaultUserMessage || Some(m) == err.frames[|err.frames| - 1].message
  {
    var latest := err.frames[|err.frames| - 1];
    if latest.message.Some? && latest.message.value != "" then latest.message.value else DefaultUserMessage
  }

  /** get_error_code: the newest frame's code. */
  function ErrorCode(err: AppError): string
    requires |err.frames| > 0
  {
    err.frames[|err.frames| - 1].code
  }

  /** The frame that was pushed last is the user-facing one: its code and its
      message (or the default) are what the readers report. */
  lemma PushedFrameIsUserFacing(err: AppError, frame: Frame, now: string)
    ensures ErrorCode(PushErrorFrame(err, frame, now)) == frame.code
    ensures UserFriendlyMessage(PushErrorFrame(err, frame, now)) == OrElse(frame.message, DefaultUserMessage)
    ensures ErrorCode(CreateAppError(frame, now, Undefined)) == frame.code
  {
  }

  /** Handling an error never loses frames: the chain grows by exactly one
      and, for a foreign value, becomes a single frame. */
  lemma {:induction false} HandleErrorGrowsChain(err: Thrown, layer: Layer, code: string, context: Record, now: string)
    requires layer == ENDPOINT || layer == LOAD
    ensures var e := HandleError(err, layer, code, context, now);
      |e.frames| == (if IsAppError(err) then |err.error.frames| + 1 else 1)
      && (IsAppError(err) ==> e.frames[..|err.error.frames|] == err.error.frames)
      && ErrorCode(e) == code
      && UserFriendlyMessage(e) != ""
  {
    var e := HandleError(err, layer, code, context, now);
    assert e.frames[|e.frames| - 1].message.Some? && e.frames[|e.frames| - 1].message.value != "";
  }
}
