/** A subscriber's side of the protocol: what a client knows after the messages it has received. */
module Replica {
  import opened Base
  import opened Protocol

  /** The public projection: not available for a reason, or ready with a list of windows. */
  datatype View = Unready(revision: U64, reason: string) | Ready(revision: U64, windows: seq<Window>)

  /** A client has heard nothing, follows a view, or has met a message the protocol does not allow. */
  datatype Client = Awaiting | Following(view: View) | Confused

  /** A strict client. It takes a full snapshot only at first or after an unavailable marker, applies a
      non-empty script only to a list it already has, and checks every revision. */
  function Advance(c: Client, m: Message): Client {
    match (c, m)
    case (Awaiting, Snapshot(r, ws)) => Following(Ready(r, ws))
    case (Awaiting, Unavailable(r, reason)) => Following(Unready(r, reason))
    case (Following(Unready(r0, _)), Snapshot(r, ws)) =>
      if r == SaturatingSucc(r0) then Following(Ready(r, ws)) else Confused
    case (Following(Unready(r0, reason0)), Unavailable(r, reason)) =>
      if r == r0 && reason != reason0 then Following(Unready(r, reason)) else Confused
    case (Following(Ready(r0, _)), Unavailable(r, reason)) =>
      if r == r0 then Following(Unready(r, reason)) else Confused
    case (Following(Ready(r0, ws0)), Changes(r, cs)) =>
      if r == SaturatingSucc(r0) && cs != [] && ApplyAll(ws0, cs).Some?
      then Following(Ready(r, ApplyAll(ws0, cs).value)) else Confused
    case _ => Confused
  }

  function Replay(log: seq<Message>): Client {
    if log == [] then Awaiting else Advance(Replay(log[..|log| - 1]), log[|log| - 1])
  }

  /** The views a client goes through, one per message. */
  function Views(log: seq<Message>): seq<View> {
    if log == [] then []
    else Views(log[..|log| - 1]) + match Replay(log) { case Following(v) => [v] case _ => [] }
  }

  /** May `b` come directly after `a` in one subscription? */
  predicate MayFollow(a: Message, b: Message) {
    match b
    case Snapshot(r, _) => a.Unavailable? && r == SaturatingSucc(a.revision)
    case Changes(r, cs) => (a.Snapshot? || a.Changes?) && r == SaturatingSucc(a.revision) && cs != []
    case Unavailable(r, reason) =>
      (a.Snapshot? || a.Changes? || a.Unavailable?) && r == a.revision && (a.Unavailable? ==> a.reason != reason)
    case _ => false
  }

  ghost predicate FitsGrammar(log: seq<Message>) {
    && log != []
    && (log[0].Snapshot? || log[0].Unavailable?)
    && forall i | 0 <= i < |log| - 1 :: MayFollow(log[i], log[i + 1])
  }

  /** The message through which a client last learned its view. */
  predicate Announces(m: Message, v: View) {
    match v
    case Ready(r, _) => (m.Snapshot? || m.Changes?) && m.revision == r
    case Unready(r, reason) => m == Unavailable(r, reason)
  }

  /** A log a strict client can follow to its end has the shape PROTOCOL.md lays down. */
  lemma {:induction false} FollowedLogsFitGrammar(log: seq<Message>)
    requires Replay(log).Following?
    ensures FitsGrammar(log) && Announces(log[|log| - 1], Replay(log).view)
    decreases |log|
  {
    var front := log[..|log| - 1];
    if front == [] {
    } else {
      assert Replay(front).Following? by {
        if Replay(front).Awaiting? { AwaitingOnlyAtFirst(front); }
      }
      FollowedLogsFitGrammar(front);
      assert log[0] == front[0];
      forall i | 0 <= i < |log| - 1 ensures MayFollow(log[i], log[i + 1]) {
        assert log[i] == front[i];
        if i + 1 < |front| { assert log[i + 1] == front[i + 1]; }
      }
    }
  }

  lemma AwaitingOnlyAtFirst(log: seq<Message>)
    requires log != []
    ensures !Replay(log).Awaiting?
  {
  }
}
