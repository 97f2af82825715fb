/**
 The battle engine: a map of sessions over a battle simulator of which nothing is assumed. Json
 documents and battles are abstract; the simulator and the few questions the engine asks of a
 document are the functions of `Rules`.
 */
module Battles {
  import opened Prelude

  type Json(==,!new)
  type Battle(==,!new)

  datatype Rules = Rules(
    create: Json -> Option<Battle>,              // BattleSession::createFromJson
    turn: (Battle, Json) -> (Battle, Json),      // processTurn: the battle after it, and its response
    view: Battle -> Option<Json>,                // battleAllInfoToJson, None when there is no battle yet
    hasErrors: Json -> bool,                     // contains("errors")
    ok: Json -> bool,                            // value("ok", true)
    dump: Json -> string
  )

  type Sessions = map<string, Battle>

  /** A turn may change the battle even when its response is rejected. */
  datatype Outcome = NoSession | Rejected(response: Json) | Accepted(response: Json)

  function Open(rules: Rules, sessions: Sessions, id: string, init: Json): (r: Option<Sessions>)
    ensures r.Some? ==> id !in sessions && r.value.Keys == sessions.Keys + {id}
  {
    match rules.create(init)
    case None => None
    case Some(battle) => if id == "" || id in sessions then None else Some(sessions[id := battle])
  }

  function Play(rules: Rules, sessions: Sessions, id: string, request: Json): (r: (Sessions, Outcome))
    ensures r.0.Keys == sessions.Keys
    ensures forall other :: other in sessions && other != id ==> r.0[other] == sessions[other]
    ensures r.1.NoSession? <==> id !in sessions
    ensures id in sessions ==>
      var (after, response) := rules.turn(sessions[id], request);
      && r.0[id] == after && r.1.response == response && (r.1.Accepted? <==> rules.ok(response))
  {
    if id !in sessions then (sessions, NoSession)
    else
      var (after, response) := rules.turn(sessions[id], request);
      (sessions[id := after],
       if rules.hasErrors(response) && !rules.ok(response) then Rejected(response)
       else if rules.ok(response) then Accepted(response) else Rejected(response))
  }

  function View(rules: Rules, sessions: Sessions, id: string): Option<Json> {
    if id in sessions then rules.view(sessions[id]) else None
  }

  /** The battle after a sequence of turn requests, rejected ones included. */
  function Fold(rules: Rules, start: Battle, requests: seq<Json>): Battle {
    if requests == [] then start
    else rules.turn(Fold(rules, start, requests[..|requests| - 1]), requests[|requests| - 1]).0
  }

  class BattleEngine {
    var sessions: Sessions

    constructor ()
      ensures sessions == map[]
    {
      sessions := map[];
    }

    /** The session is built before the lock is taken; only a free, non-empty id gets it. */
    method CreateSession(rules: Rules, id: string, init: Json) returns (ok: bool)
      modifies this
      ensures (if ok then Some(sessions) else None) == Open(rules, old(sessions), id, init)
      ensures !ok ==> sessions == old(sessions)
    {
      if id == "" {
        return false;
      }
      var created := rules.create(init);
      if created.None? {
        return false;
      }
      if id in sessions {
        return false;
      }
      sessions := sessions[id := created.value];
      return true;
    }

    method ProcessTurn(rules: Rules, id: string, request: Json) returns (ok: bool, response: Option<Json>)
      modifies this
      ensures (sessions, if response.None? then NoSession
                         else if ok then Accepted(response.value) else Rejected(response.value))
           == Play(rules, old(sessions), id, request)
      ensures if id !in old(sessions) then !ok && response.None? && sessions == old(sessions)
              else
                var (after, answer) := rules.turn(old(sessions)[id], request);
                ok == rules.ok(answer) && response == Some(answer) && sessions == old(sessions)[id := after]
    {
      if id !in sessions {
        return false, None;
      }
      var (after, answer) := rules.turn(sessions[id], request);
      sessions := sessions[id := after];
      response := Some(answer);
      if rules.hasErrors(answer) && rules.ok(answer) == false {
        return false, response;
      }
      return rules.ok(answer), response;
    }

    method GetState(rules: Rules, id: string) returns (state: Option<Json>)
      ensures state == if id in sessions then rules.view(sessions[id]) else None
    {
      if id !in sessions {
        return None;
      }
      return rules.view(sessions[id]);
    }

    method DestroySession(id: string) returns (existed: bool)
      modifies this
      ensures sessions == old(sessions) - {id}
      ensures existed == (id in old(sessions))
    {
      existed := id in sessions;
      sessions := sessions - {id};
    }
  }
}
