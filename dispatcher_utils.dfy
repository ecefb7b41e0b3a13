/** The helpers of `src/lib/DISPATCHER/utils.ts`: rendering an error chain
    for the dispatcher screens and the completeness test on a ticket. */
module DispatcherUtils {
  import opened Wrappers
  import opened Json
  import opened Text
  import opened CoreErrors

  datatype ErrorDisplay = ErrorDisplay(summary: string, details: string, troubleshooting: Value)

  /** The fields of a dispatcher ticket that the helpers read. */
  datatype Ticket = Ticket(id: Option<int>, status: string, clientName: string, clientEmail: string,
                           pickupAddress: string, deliveryAddress: string, productDescription: string)

  /** One line of the detailed view: `[layer] code: message`. A template
      literal renders a missing message as the text `undefined`. */
  function FrameLine(f: Frame): string {
    "[" + LayerName(f.layer) + "] " + f.code + ": " + (if f.message.Some? then f.message.value else "undefined")
  }

  function FrameLines(frames: seq<Frame>): (lines: seq<string>)
    ensures |lines| == |frames|
    ensures forall i :: 0 <= i < |frames| ==> lines[i] == FrameLine(frames[i])
  {
    seq(|frames|, i requires 0 <= i < |frames| => FrameLine(frames[i]))
  }

  /** DISPATCHERUTIL_format_error_for_display. The source reads the newest
      frame without checking that the chain is non-empty. */
  function FormatErrorForDisplay(err: AppError): (d: ErrorDisplay)
    requires |err.frames| > 0
    ensures d.summary == UserFriendlyMessage(err)
    ensures d.details == Join(FrameLines(err.frames), "\n")
  {
    var latest := err.frames[|err.frames| - 1];
    var troubleshooting :=
      if "troubleshooting" in latest.context && Truthy(latest.context["troubleshooting"])
      then latest.context["troubleshooting"] else Arr([]);
    ErrorDisplay(
      if latest.message.Some? && latest.message.value != "" then latest.message.value else DefaultUserMessage,
      Join(FrameLines(err.frames), "\n"),
      troubleshooting)
  }

  /** After a push, the hints shown are the pushed frame's truthy
      `troubleshooting`, whatever older frames carried; otherwise none. */
  lemma PushedFrameHintsAreShown(err: AppError, frame: Frame, now: string)
    ensures "troubleshooting" in frame.context && Truthy(frame.context["troubleshooting"]) ==>
      FormatErrorForDisplay(PushErrorFrame(err, frame, now)).troubleshooting == frame.context["troubleshooting"]
    ensures !("troubleshooting" in frame.context && Truthy(frame.context["troubleshooting"])) ==>
      FormatErrorForDisplay(PushErrorFrame(err, frame, now)).troubleshooting == Arr([])
  {
    assert PushErrorFrame(err, frame, now).frames[|err.frames|].context == frame.context;
  }

  /** Pushing a frame adds exactly one line at the end of the details and
      makes that frame's message the summary. */
  lemma {:induction false} PushAddsOneDetailLine(err: AppError, frame: Frame, now: string)
    requires |err.frames| > 0
    ensures var pushed := PushErrorFrame(err, frame, now);
      FormatErrorForDisplay(pushed).details ==
        FormatErrorForDisplay(err).details + "\n" + FrameLine(Stamp(frame, now))
      && FormatErrorForDisplay(pushed).summary == OrElse(frame.message, DefaultUserMessage)
  {
    var pushed := PushErrorFrame(err, frame, now);
    var lines := FrameLines(pushed.frames);
    assert lines[..|lines| - 1] == FrameLines(err.frames);
  }

  /** The details hold one line per frame: when no code or message contains
      a line break, the details contain one fewer line breaks than frames. */
  lemma {:induction false} DetailsHaveOneLinePerFrame(err: AppError)
    requires |err.frames| > 0
    requires forall k :: 0 <= k < |err.frames| ==> '\n' !in err.frames[k].code
    requires forall k :: 0 <= k < |err.frames| ==> err.frames[k].message.Some? ==> '\n' !in err.frames[k].message.value
    ensures Count(FormatErrorForDisplay(err).details, '\n') == |err.frames| - 1
  {
    var lines := FrameLines(err.frames);
    forall k | 0 <= k < |lines|
      ensures '\n' !in lines[k]
    {
      FrameLineHasNoBreak(err.frames[k]);
    }
    JoinCount(lines, '\n');
  }

  lemma FrameLineHasNoBreak(f: Frame)
    requires '\n' !in f.code
    requires f.message.Some? ==> '\n' !in f.message.value
    ensures '\n' !in FrameLine(f)
  {
    assert '\n' !in LayerName(f.layer);
  }

  /** DISPATCHERUTIL_is_ticket_valid: a ticket exists and names its client
      and the client's e-mail. */
  function IsTicketValid(ticket: Option<Ticket>): (ok: bool)
    ensures ok <==> ticket.Some? && |ticket.value.clientName| > 0 && |ticket.value.clientEmail| > 0
  {
    match ticket
    case None => false
    case Some(t) => t.clientName != "" && t.clientEmail != ""
  }
}
