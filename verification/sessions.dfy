/** The session store of the web host (backend/mcp-host/host.py): a map
    from session id to the agent built for that session, driven by the
    `/start`, `/ask` and `/clear-session` endpoints through the
    `session_id` cookie. The agent is opaque; its `run` is a parameter, as
    is the `uuid4` id of a new session. */
module Sessions {
  import opened Common

  /** An agent built by `/start`; `serial` tells agents apart (each one is
      new, with the shared model, client and prompt). */
  datatype Agent = Agent(serial: nat)

  /** `agent_store`, and how many agents have been built so far. */
  datatype Host = Host(store: map<string, Agent>, built: nat)

  datatype Cookie = KeepCookie | SetCookie(id: string) | DeleteCookie

  datatype Body = NoBody | ErrorBody(error: string) | ResponseBody(response: string) | MessageBody(message: string)

  datatype Reply = Reply(status: nat, body: Body, cookie: Cookie)

  /** What the agent's `run` gives: the answer, or the exception it raised. */
  datatype RunResult = Answered(text: string) | RunFailed(error: string)

  const NotInitialized: string := "Session not initialized. Call /start first."
  const ClearedMessage: string := "Session cleared."

  /** The request carries a truthy cookie naming a stored session. */
  predicate Known(h: Host, cookie: Option<string>) {
    Truthy(cookie) && cookie.value in h.store
  }

  /** `/start`: a known session is left alone; otherwise a new agent is
      stored under the fresh id and the cookie is set to it. */
  function StartSession(h: Host, cookie: Option<string>, freshId: string): (r: (Host, Reply))
    ensures Known(h, cookie) ==> r == (h, Reply(204, NoBody, KeepCookie))
    ensures !Known(h, cookie) ==>
              && r.0.store.Keys == h.store.Keys + {freshId}
              && (forall k :: k in h.store && k != freshId ==> r.0.store[k] == h.store[k])
              && r.1 == Reply(204, NoBody, SetCookie(freshId))
  {
    if Known(h, cookie) then (h, Reply(204, NoBody, KeepCookie))
    else (Host(h.store[freshId := Agent(h.built)], h.built + 1), Reply(204, NoBody, SetCookie(freshId)))
  }

  /** Every stored agent was built before: serials are below the count. */
  predicate WellBuilt(h: Host) {
    forall k :: k in h.store ==> h.store[k].serial < h.built
  }

  /** `/ask`: an unknown session gets 400; a known one runs its own agent,
      and a failure of the agent comes back as an error body with status
      200. The store never changes. */
  function AskQuery(h: Host, cookie: Option<string>, query: string, run: (Agent, string) -> RunResult): (r: Reply)
    ensures !Known(h, cookie) ==> r == Reply(400, ErrorBody(NotInitialized), KeepCookie)
    ensures Known(h, cookie) ==>
              && r.status == 200 && r.cookie == KeepCookie
              && match run(h.store[cookie.value], query)
                 case Answered(t) => r.body == ResponseBody(t)
                 case RunFailed(e) => r.body == ErrorBody(e)
  {
    if !Known(h, cookie) then Reply(400, ErrorBody(NotInitialized), KeepCookie)
    else match run(h.store[cookie.value], query)
      case Answered(t) => Reply(200, ResponseBody(t), KeepCookie)
      case RunFailed(e) => Reply(200, ErrorBody(e), KeepCookie)
  }

  /** `/clear-session`: a known session is removed, the others are kept,
      and the cookie is deleted; otherwise 204 and nothing changes. */
  function ClearSession(h: Host, cookie: Option<string>): (r: (Host, Reply))
    ensures !Known(h, cookie) ==> r == (h, Reply(204, NoBody, KeepCookie))
    ensures Known(h, cookie) ==>
              && r.0.store.Keys == h.store.Keys - {cookie.value}
              && (forall k :: k in r.0.store ==> r.0.store[k] == h.store[k])
              && r.1 == Reply(200, MessageBody(ClearedMessage), DeleteCookie)
  {
    if Known(h, cookie) then (h.(store := h.store - {cookie.value}), Reply(200, MessageBody(ClearedMessage), DeleteCookie))
    else (h, Reply(204, NoBody, KeepCookie))
  }

  /** Starting keeps every stored agent accounted for, and a started
      session gets an agent no other session holds. */
  lemma StartBuildsNewAgent(h: Host, cookie: Option<string>, freshId: string)
    requires WellBuilt(h)
    ensures WellBuilt(StartSession(h, cookie, freshId).0)
    ensures !Known(h, cookie) ==>
              forall k :: k in h.store ==> StartSession(h, cookie, freshId).0.store[freshId] != h.store[k]
  {
  }

  /** The cookie `/start` sets names the new session, so the next `/ask`
      with it runs the agent that was just built. */
  lemma StartThenAsk(h: Host, cookie: Option<string>, freshId: string, query: string,
                     run: (Agent, string) -> RunResult)
    requires !Known(h, cookie) && freshId != []
    ensures var s := StartSession(h, cookie, freshId);
            && s.1.cookie == SetCookie(freshId)
            && Known(s.0, Some(freshId))
            && s.0.store[freshId] == Agent(h.built)
            && AskQuery(s.0, Some(freshId), query, run).status == 200
  {
  }

  /** After a session is cleared, asking with its cookie is refused. */
  lemma ClearThenAskRefused(h: Host, cookie: Option<string>, query: string, run: (Agent, string) -> RunResult)
    requires Known(h, cookie)
    ensures AskQuery(ClearSession(h, cookie).0, cookie, query, run) == Reply(400, ErrorBody(NotInitialized), KeepCookie)
  {
  }

  /** Starting a new session under an unused id and clearing it gives back
      the store as it was. */
  lemma StartThenClear(h: Host, cookie: Option<string>, freshId: string)
    requires !Known(h, cookie) && freshId != [] && freshId !in h.store
    ensures ClearSession(StartSession(h, cookie, freshId).0, Some(freshId)).0.store == h.store
  {
    var s := StartSession(h, cookie, freshId).0;
    assert s.store - {freshId} == h.store;
  }
}
