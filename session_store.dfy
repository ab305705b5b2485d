/** The in-memory session store: message lists kept per session id. */
module Sessions {

  /** `sessions.get(session_id, [])`. */
  function Lookup<T>(sessions: map<string, seq<T>>, sessionId: string): seq<T> {
    if sessionId in sessions then sessions[sessionId] else []
  }

  class SessionStore<T> {
    var sessions: map<string, seq<T>>

    constructor ()
      ensures sessions == map[]
    {
      sessions := map[];
    }

    /** `get_session`: the saved messages, or [] for an unknown id. It has no
        `modifies` clause, so it leaves the store as it was, unknown ids
        included. */
    method GetSession(sessionId: string) returns (messages: seq<T>)
      ensures sessionId in sessions ==> messages == sessions[sessionId]
      ensures sessionId !in sessions ==> messages == []
      ensures messages == Lookup(sessions, sessionId)
    {
      if sessionId in sessions {
        messages := sessions[sessionId];
      } else {
        messages := [];
      }
    }

    /** `save_session`: stores `messages` under `sessionId`, replacing what
        was there and nothing else. */
    method SaveSession(sessionId: string, messages: seq<T>)
      modifies this
      ensures sessions == old(sessions)[sessionId := messages]
    {
      sessions := sessions[sessionId := messages];
    }
  }

  /** A save is read back under its id, and every other id reads as before. */
  lemma SaveThenLookup<T>(sessions: map<string, seq<T>>, sessionId: string, messages: seq<T>, other: string)
    ensures Lookup(sessions[sessionId := messages], sessionId) == messages
    ensures other != sessionId ==> Lookup(sessions[sessionId := messages], other) == Lookup(sessions, other)
  {
  }

  /** A second save under the same id replaces the first completely. */
  lemma SecondSaveOverwrites<T>(sessions: map<string, seq<T>>, sessionId: string, first: seq<T>, second: seq<T>)
    ensures sessions[sessionId := first][sessionId := second] == sessions[sessionId := second]
  {
  }

  /** The behaviour a caller sees: a fresh store answers [] for every id, a
      saved list is read back, other ids are untouched, a later save wins,
      and reading never changes the store. */
  method StoreScenario<T>(a: string, b: string, m1: seq<T>, m2: seq<T>)
    requires a != b
  {
    var store := new SessionStore<T>();
    var got := store.GetSession(a);
    assert got == [];
    assert store.sessions == map[];

    store.SaveSession(a, m1);
    got := store.GetSession(a);
    assert got == m1;
    got := store.GetSession(b);
    assert got == [];
    assert store.sessions == map[a := m1];

    store.SaveSession(b, m2);
    got := store.GetSession(a);
    assert got == m1;

    store.SaveSession(a, m2);
    got := store.GetSession(a);
    assert got == m2;
  }
}
