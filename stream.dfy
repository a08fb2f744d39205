/**
 * The streaming reply editor of source/core/stream.py: it accumulates chunks,
 * creates one "Thinking..." placeholder reply, and edits it with the visible part of
 * the buffer on forced calls or on every `every`-th chunk that the throttle lets
 * through. Discord calls are effects the editor emits; whether the placeholder reply
 * succeeds is an input.
 */
module Stream {
  import opened Text
  import opened RateLimit

  const ThinkOpen := "<think>"
  const ThinkClose := "</think>"
  const Placeholder := "Thinking..."

  /**
   * The part of the output shown to users: what follows the last `</think>`; nothing
   * while a `<think>` block is still open; the whole output when there is no tag.
   */
  function SanitizeVisible(output: string): (v: string)
    ensures |v| <= |output| && v == output[|output| - |v|..]
    ensures !Contains(v, ThinkClose)
    ensures Contains(output, ThinkClose) ==>
      |v| + |ThinkClose| <= |output| && OccursAt(output, ThinkClose, |output| - |v| - |ThinkClose|)
    ensures Contains(output, ThinkOpen) && !Contains(output, ThinkClose) ==> v == ""
    ensures !Contains(output, ThinkOpen) && !Contains(output, ThinkClose) ==> v == output
  {
    LastPieceSuffix(output, ThinkClose);
    LastPieceFree(output, ThinkClose);
    var v := LastPiece(output, ThinkClose);
    assert Contains(output, ThinkClose) ==>
      |v| + |ThinkClose| <= |output| && OccursAt(output, ThinkClose, |output| - |v| - |ThinkClose|) by {
      if Contains(output, ThinkClose) {
        LastPieceAfterSeparator(output, ThinkClose);
      }
    }
    SplitCount(output, ThinkClose);
    if Contains(output, ThinkOpen) && !Contains(output, ThinkClose) then ""
    else v
  }

  /** A Discord call the editor makes: the placeholder reply, an edit of it, or a channel message. */
  datatype Effect = Reply(text: string) | Edit(text: string) | Send(text: string)

  /** How one call ends: normally, with the reply's exception, or with `iteration % 0`. */
  datatype ChunkOutcome = Done | ReplyRaised | ZeroDivision

  class StreamEditor {
    /** Stored but never read by the editor. */
    const safeEditLength: int
    const every: int
    var iteration: int
    var buffer: string
    var hasReply: bool
    const throttle: Throttle

    ghost predicate Valid()
      reads this, throttle
    {
      throttle.Valid()
    }

    constructor (safeEditLength: int, editEveryNChunks: int, editMinIntervalMs: int)
      ensures Valid() && fresh(throttle)
      ensures this.safeEditLength == safeEditLength && every == editEveryNChunks
      ensures iteration == 0 && buffer == "" && !hasReply
      ensures throttle.minInterval == editMinIntervalMs && throttle.last == 0 && throttle.calls == []
    {
      this.safeEditLength := safeEditLength;
      every := editEveryNChunks;
      iteration := 0;
      buffer := "";
      hasReply := false;
      throttle := new Throttle(editMinIntervalMs);
    }

    /**
     * One chunk: count it, append it, create the placeholder reply if there is none,
     * then edit the reply with the visible buffer when forced, or when the count is a
     * multiple of `every` and the throttle grants. The throttle is asked only in that
     * last case. A failed edit is logged and swallowed, so it changes no state.
     */
    method OnStreamChunk(chunk: string, force: bool, now: int, replyOk: bool)
      returns (effects: seq<Effect>, outcome: ChunkOutcome)
      requires Valid()
      modifies this, throttle
      ensures Valid()
      ensures iteration == old(iteration) + 1 && buffer == old(buffer) + chunk
      ensures hasReply == (old(hasReply) || replyOk)
      ensures var placeholder := if old(hasReply) then [] else [Reply(Placeholder)];
        if !hasReply then
          outcome == ReplyRaised && effects == placeholder && throttle.calls == old(throttle.calls)
        else if force then
          outcome == Done && effects == placeholder + [Edit(SanitizeVisible(buffer))]
          && throttle.calls == old(throttle.calls)
        else if every == 0 then
          outcome == ZeroDivision && effects == placeholder && throttle.calls == old(throttle.calls)
        else if iteration % every != 0 then
          outcome == Done && effects == placeholder && throttle.calls == old(throttle.calls)
        else
          outcome == Done && throttle.calls == old(throttle.calls) + [now]
          && effects == placeholder
            + (if Granted(throttle.minInterval, throttle.calls, |throttle.calls| - 1)
               then [Edit(SanitizeVisible(buffer))] else [])
    {
      iteration := iteration + 1;
      buffer := buffer + chunk;
      var visible := SanitizeVisible(buffer);
      effects := [];
      if !hasReply {
        effects := [Reply(Placeholder)];
        if !replyOk {
          return effects, ReplyRaised;
        }
        hasReply := true;
      }
      if force {
        return effects + [Edit(visible)], Done;
      }
      if every == 0 {
        return effects, ZeroDivision;
      }
      if iteration % every == 0 {
        var granted := throttle.Ready(now);
        if granted {
          effects := effects + [Edit(visible)];
        }
      }
      outcome := Done;
    }
  }
}
