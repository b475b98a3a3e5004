/**
 SSH connection bookkeeping: `host[:port]` parsing, the connection pool keyed by
 the hostname text, and each connection's list of sessions, reused by handler
 kind and re-ordered when a session switches its handler.  Opening the transport
 and the remote session belongs to the SSH library; its failure is an input.
 */
module Ssh {
  import opened Text
  import opened Results
  import opened Dicts

  /** Where a connection goes. */
  datatype Endpoint = Endpoint(host: string, port: int)

  const DefaultPort := 22

  /** Python's `int(text)` for a decimal literal; signs, blanks and `_` are not modelled. */
  function ParseInt(text: string): (r: Result<int>)
    ensures r.Ok? <==> |text| > 0 && AllDigits(text)
    ensures r.Ok? ==> r.value == DigitsValue(text)
    ensures r.Err? ==> r.error == ValueError("invalid literal for int() with base 10: '" + text + "'")
  {
    if |text| > 0 && AllDigits(text) then Ok(DigitsValue(text))
    else Err(ValueError("invalid literal for int() with base 10: '" + text + "'"))
  }

  /**
   The host and port of `get_connection`: two or more colons are an invalid
   hostname, one colon separates the port, and no colon means port 22.
   */
  function ParseHost(hostname: string): (r: Result<Endpoint>)
    ensures Occurrences(hostname, ':') >= 2 <==> r == Err(ValueError("Hostname invalid: " + hostname))
    ensures Occurrences(hostname, ':') == 0 ==> r == Ok(Endpoint(hostname, DefaultPort))
    ensures r.Ok? ==> ':' !in r.value.host && r.value.port >= 0
  {
    SplitCount(hostname, ':');
    SplitPartsFree(hostname, ':');
    var parts := Split(hostname, ':');
    if |parts| > 2 then Err(ValueError("Hostname invalid: " + hostname))
    else if |parts| == 2 then
      match ParseInt(parts[1])
      case Err(e) =>
        assert e.message[0] == 'i';
        Err(e)
      case Ok(port) => Ok(Endpoint(parts[0], port))
    else
      JoinSplit(hostname, ':');
      Ok(Endpoint(hostname, DefaultPort))
  }

  /** The text `host:port` names the host and the port, for any host without a colon. */
  lemma HostPortRoundTrip(host: string, port: nat)
    requires ':' !in host
    ensures ParseHost(host + ":" + NatString(port)) == Ok(Endpoint(host, port))
  {
    var digits := NatString(port);
    assert ':' !in digits by {
      forall i | 0 <= i < |digits| ensures digits[i] != ':' {
        assert IsDigit(digits[i]);
      }
    }
    SplitAppend(host, ':', digits);
    SplitNoSep(host, ':');
    SplitNoSep(digits, ':');
    assert host + ":" + digits == host + [':'] + digits;
    NatStringValue(port);
  }

  /**
   The pool of `get_connection`: one endpoint per hostname text as given, and how
   many connections were ever opened.
   */
  datatype Pool = Pool(conns: Dict<string, Endpoint>, connects: nat)

  /**
   `get_connection`: a cached hostname gives its connection back untouched; otherwise
   the hostname is parsed, the connection is opened (`openError` is the transport's
   failure, if any) and cached.  A failure caches nothing.
   */
  function GetConnection(pool: Pool, hostname: string, openError: Option<PyError>): (r: Result<(Pool, Endpoint)>)
    requires pool.conns.Valid()
    ensures pool.conns.Has(hostname) ==> r == Ok((pool, pool.conns.entries[hostname]))
    ensures !pool.conns.Has(hostname) ==>
      (r.Ok? <==> ParseHost(hostname).Ok? && openError.None?)
    ensures !pool.conns.Has(hostname) && ParseHost(hostname).Err? ==> r == Err(ParseHost(hostname).error)
    ensures !pool.conns.Has(hostname) && r.Ok? ==>
      && r.value.1 == ParseHost(hostname).value
      && r.value.0.connects == pool.connects + 1
      && r.value.0.conns.Valid() && r.value.0.conns.Has(hostname) && r.value.0.conns.entries[hostname] == r.value.1
      && r.value.0.conns.keys == pool.conns.keys + [hostname]
      && forall h :: h != hostname && pool.conns.Has(h) ==> r.value.0.conns.Has(h) && r.value.0.conns.entries[h] == pool.conns.entries[h]
  {
    if pool.conns.Has(hostname) then Ok((pool, pool.conns.entries[hostname]))
    else
      var endpoint :- ParseHost(hostname);
      if openError.Some? then Err(openError.value)
      else Ok((Pool(pool.conns.Put(hostname, endpoint), pool.connects + 1), endpoint))
  }

  /** Asking again for a hostname that was connected gives the same connection and opens nothing. */
  lemma ConnectionReused(pool: Pool, hostname: string, first: Option<PyError>, again: Option<PyError>)
    requires pool.conns.Valid() && GetConnection(pool, hostname, first).Ok?
    ensures var (after, c) := GetConnection(pool, hostname, first).value;
      GetConnection(after, hostname, again) == Ok((after, c)) && after.connects <= pool.connects + 1
  {
  }

  /** The handler classes; the Rails and psql consoles are kinds of console. */
  datatype HandlerClass = ConsoleHandler | RailsHandler | PsqlHandler | InteractiveHandler

  /** `isinstance(handler, cls)`. */
  predicate IsInstance(handler: HandlerClass, cls: HandlerClass)
  {
    handler == cls || (cls == ConsoleHandler && (handler == RailsHandler || handler == PsqlHandler))
  }

  /** A switchable session: its identity and its current handler. */
  datatype Session = Session(id: nat, handler: HandlerClass)

  /** A connection's sessions in list order, and the identity the next new session gets. */
  datatype Connection = Connection(sessions: seq<Session>, nextId: nat)
  {
    /** Every session is listed at most once, and identities are handed out in order. */
    ghost predicate Valid()
    {
      && (forall i, j :: 0 <= i < j < |sessions| ==> sessions[i].id != sessions[j].id)
      && (forall i :: 0 <= i < |sessions| ==> sessions[i].id < nextId)
    }

    predicate Lists(id: nat)
    {
      exists i :: 0 <= i < |sessions| && sessions[i].id == id
    }
  }

  /** The first session whose handler is an instance of `cls`. */
  function FirstInstance(sessions: seq<Session>, cls: HandlerClass): (r: Option<nat>)
    ensures r.Some? ==> r.value < |sessions| && IsInstance(sessions[r.value].handler, cls)
    ensures r.Some? ==> forall j :: 0 <= j < r.value ==> !IsInstance(sessions[j].handler, cls)
    ensures r.None? ==> forall j :: 0 <= j < |sessions| ==> !IsInstance(sessions[j].handler, cls)
    decreases |sessions|
  {
    if |sessions| == 0 then None
    else if IsInstance(sessions[0].handler, cls) then Some(0)
    else
      match FirstInstance(sessions[1..], cls)
      case Some(i) => Some(i + 1)
      case None => None
  }

  /**
   `get_session`: the first session whose handler is an instance of the class; if
   there is none, a new session with that handler is created and appended
   (`createError` is the remote side's failure to open it, if any).
   */
  function GetSession(c: Connection, cls: HandlerClass, createError: Option<PyError>): (r: Result<(Connection, Session)>)
    ensures FirstInstance(c.sessions, cls).Some? ==>
      r.Ok? && r.value.0 == c && r.value.1 == c.sessions[FirstInstance(c.sessions, cls).value]
    ensures r.Ok? ==> IsInstance(r.value.1.handler, cls) && r.value.0.Lists(r.value.1.id)
    ensures FirstInstance(c.sessions, cls).None? ==>
      (&& (createError.Some? ==> r == Err(createError.value))
       && (createError.None? ==>
             r == Ok((Connection(c.sessions + [Session(c.nextId, cls)], c.nextId + 1), Session(c.nextId, cls)))))
    ensures c.Valid() && r.Ok? ==> r.value.0.Valid()
  {
    match FirstInstance(c.sessions, cls)
    case Some(i) => Ok((c, c.sessions[i]))
    case None =>
      if createError.Some? then Err(createError.value)
      else
        var s := Session(c.nextId, cls);
        var after := Connection(c.sessions + [s], c.nextId + 1);
        assert after.sessions[|c.sessions|].id == s.id;
        Ok((after, s))
  }

  /** Once a session of a class exists, asking for that class again reuses it and creates nothing. */
  lemma SessionReused(c: Connection, cls: HandlerClass, first: Option<PyError>, again: Option<PyError>)
    requires GetSession(c, cls, first).Ok?
    ensures var (after, s) := GetSession(c, cls, first).value;
      GetSession(after, cls, again) == Ok((after, s))
  {
    var (after, s) := GetSession(c, cls, first).value;
    if FirstInstance(c.sessions, cls).None? {
      var i := FirstInstance(after.sessions, cls);
      assert IsInstance(after.sessions[|c.sessions|].handler, cls);
      assert i.Some? && i.value == |c.sessions|;
    }
  }

  /** The sessions other than `id`, in order. */
  function Without(sessions: seq<Session>, id: nat): (r: seq<Session>)
    ensures |r| <= |sessions|
    ensures forall i :: 0 <= i < |r| ==> r[i].id != id && r[i] in sessions
    decreases |sessions|
  {
    if |sessions| == 0 then []
    else (if sessions[0].id == id then [] else [sessions[0]]) + Without(sessions[1..], id)
  }

  /** `list.remove`: drop the first entry with the identity. */
  function RemoveFirst(sessions: seq<Session>, id: nat): (r: seq<Session>)
    ensures (exists i :: 0 <= i < |sessions| && sessions[i].id == id) ==> |r| == |sessions| - 1
    ensures (forall i :: 0 <= i < |sessions| ==> sessions[i].id != id) ==> r == sessions
    decreases |sessions|
  {
    if |sessions| == 0 then []
    else if sessions[0].id == id then sessions[1..]
    else
      var rest := RemoveFirst(sessions[1..], id);
      assert (exists i :: 0 <= i < |sessions| && sessions[i].id == id) ==>
        exists i :: 0 <= i < |sessions[1..]| && sessions[1..][i].id == id by {
        if exists i :: 0 <= i < |sessions| && sessions[i].id == id {
          var i :| 0 <= i < |sessions| && sessions[i].id == id;
          assert sessions[1..][i - 1].id == id;
        }
      }
      [sessions[0]] + rest
  }

  /** When identities are unique, removing the first entry of an identity removes all of them. */
  lemma {:induction false} RemoveFirstIsWithout(sessions: seq<Session>, id: nat)
    requires forall i, j :: 0 <= i < j < |sessions| ==> sessions[i].id != sessions[j].id
    ensures RemoveFirst(sessions, id) == Without(sessions, id)
    decreases |sessions|
  {
    if |sessions| > 0 {
      RemoveFirstIsWithout(sessions[1..], id);
      if sessions[0].id == id {
        WithoutAbsent(sessions[1..], id);
      }
    }
  }

  lemma {:induction false} WithoutAbsent(sessions: seq<Session>, id: nat)
    requires forall i :: 0 <= i < |sessions| ==> sessions[i].id != id
    ensures Without(sessions, id) == sessions
    decreases |sessions|
  {
    if |sessions| > 0 {
      WithoutAbsent(sessions[1..], id);
      assert sessions == [sessions[0]] + sessions[1..];
    }
  }

  /** Dropping an identity keeps the others unique and leaves that identity out. */
  lemma {:induction false} WithoutKeepsUnique(sessions: seq<Session>, id: nat)
    requires forall i, j :: 0 <= i < j < |sessions| ==> sessions[i].id != sessions[j].id
    ensures forall i, j :: 0 <= i < j < |Without(sessions, id)| ==> Without(sessions, id)[i].id != Without(sessions, id)[j].id
    decreases |sessions|
  {
    if |sessions| > 0 {
      WithoutKeepsUnique(sessions[1..], id);
      var rest := Without(sessions[1..], id);
      assert forall a, b :: 0 <= a < b < |rest| ==> rest[a].id != rest[b].id;
      forall i | 0 <= i < |rest| ensures rest[i].id != sessions[0].id {
        var k :| 0 <= k < |sessions[1..]| && sessions[1..][k] == rest[i];
        assert sessions[k + 1] == rest[i];
      }
      if sessions[0].id != id {
        var r := [sessions[0]] + rest;
        assert Without(sessions, id) == r;
        forall i, j | 0 <= i < j < |r| ensures r[i].id != r[j].id {
          if i > 0 {
            assert r[i] == rest[i - 1] && r[j] == rest[j - 1];
          } else {
            assert r[j] == rest[j - 1];
          }
        }
      }
    }
  }

  /** Removing from a valid list keeps it valid and removes every listing of the identity. */
  lemma RemoveFirstValid(c: Connection, id: nat)
    ensures var r := Connection(RemoveFirst(c.sessions, id), c.nextId);
      c.Valid() ==> r.Valid() && r.sessions == Without(c.sessions, id) && !r.Lists(id)
  {
    var r := Connection(RemoveFirst(c.sessions, id), c.nextId);
    if c.Valid() {
      RemoveFirstIsWithout(c.sessions, id);
      WithoutKeepsUnique(c.sessions, id);
      forall i | 0 <= i < |r.sessions| ensures r.sessions[i].id < r.nextId {
        assert r.sessions[i] in c.sessions;
      }
    }
  }

  /** `remove_session`: the session leaves the list if it is in it. */
  function RemoveSession(c: Connection, s: Session): (r: Connection)
    ensures r.nextId == c.nextId
    ensures !c.Lists(s.id) ==> r == c
    ensures c.Lists(s.id) ==> |r.sessions| == |c.sessions| - 1
    ensures c.Valid() ==> r.Valid() && r.sessions == Without(c.sessions, s.id) && !r.Lists(s.id)
  {
    RemoveFirstValid(c, s.id);
    Connection(RemoveFirst(c.sessions, s.id), c.nextId)
  }

  /** `add_session`: the session goes to the end of the list. */
  function AddSession(c: Connection, s: Session): (r: Connection)
    ensures r.sessions == c.sessions + [s] && r.nextId == c.nextId
  {
    c.(sessions := c.sessions + [s])
  }

  const SwitchUnlockedMessage := "Call switch_handler with a locked session (use the session context manager)"

  /**
   `switch_handler`: only with the session's lock held; the session, now with the
   new handler, is taken out of the list and put back at its end.
   */
  function SwitchHandler(c: Connection, s: Session, locked: bool, handler: HandlerClass): (r: Result<(Connection, Session)>)
    ensures !locked <==> r == Err(RuntimeError(SwitchUnlockedMessage))
    ensures r.Ok? ==>
      && r.value.1 == Session(s.id, handler)
      && r.value.0.nextId == c.nextId
      && |r.value.0.sessions| > 0 && r.value.0.sessions[|r.value.0.sessions| - 1] == r.value.1
    ensures r.Ok? && c.Valid() && s.id < c.nextId ==>
      r.value.0.Valid() && r.value.0.sessions == Without(c.sessions, s.id) + [r.value.1]
  {
    if !locked then Err(RuntimeError(SwitchUnlockedMessage))
    else
      var switched := Session(s.id, handler);
      var removed := RemoveSession(c, s);
      var after := AddSession(removed, switched);
      Ok((after, switched))
  }

  /** Switching twice while locked leaves one listing of the session, at the end, with the last handler. */
  lemma SwitchTwice(c: Connection, s: Session, h1: HandlerClass, h2: HandlerClass)
    requires c.Valid() && s.id < c.nextId
    ensures var (c1, s1) := SwitchHandler(c, s, true, h1).value;
      var (c2, s2) := SwitchHandler(c1, s1, true, h2).value;
      c2.sessions == Without(c.sessions, s.id) + [Session(s.id, h2)] && c2.Valid()
  {
    var (c1, s1) := SwitchHandler(c, s, true, h1).value;
    var w := Without(c.sessions, s.id);
    forall i | 0 <= i < |w| ensures w[i].id != s.id { }
    WithoutAbsent(w, s.id);
    assert Without(c1.sessions, s.id) == Without(w, s.id) + Without([s1], s.id) by {
      WithoutConcat(w, [s1], s.id);
    }
    assert Without([s1], s.id) == [] by {
      assert [s1][1..] == [];
    }
  }

  lemma {:induction false} WithoutConcat(a: seq<Session>, b: seq<Session>, id: nat)
    ensures Without(a + b, id) == Without(a, id) + Without(b, id)
    decreases |a|
  {
    if |a| == 0 {
      assert a + b == b;
    } else {
      var h := if a[0].id == id then [] else [a[0]];
      assert (a + b)[0] == a[0];
      assert (a + b)[1..] == a[1..] + b;
      assert Without(a + b, id) == h + Without(a[1..] + b, id);
      WithoutConcat(a[1..], b, id);
      assert Without(a, id) == h + Without(a[1..], id);
    }
  }

  /** `connection_lost`: the session leaves its connection's list. */
  function ConnectionLost(c: Connection, s: Session): (r: Connection)
    ensures c.Valid() ==> r.Valid() && !r.Lists(s.id) && r.sessions == Without(c.sessions, s.id)
    ensures !c.Lists(s.id) ==> r == c
  {
    RemoveSession(c, s)
  }

  const EnterUnlockedMessage := "Use the session context manager with \"await\""

  /** The plain `with session:` form: the handler only when the lock is already held. */
  function Enter(s: Session, locked: bool): (r: Result<HandlerClass>)
    ensures locked <==> r.Ok?
    ensures r.Ok? ==> r.value == s.handler
    ensures r.Err? ==> r.error == RuntimeError(EnterUnlockedMessage)
  {
    if locked then Ok(s.handler) else Err(RuntimeError(EnterUnlockedMessage))
  }

  /** Adding a session that is not listed and then removing it gives back the connection. */
  lemma AddThenRemove(c: Connection, s: Session)
    requires c.Valid() && s.id < c.nextId && !c.Lists(s.id)
    ensures AddSession(c, s).Valid()
    ensures RemoveSession(AddSession(c, s), s) == c
  {
    var a := AddSession(c, s);
    NotListed(c, s.id);
    AddValid(c, s);
    WithoutConcat(c.sessions, [s], s.id);
    WithoutAbsent(c.sessions, s.id);
    assert Without([s], s.id) == [] by {
      assert [s][1..] == [];
    }
    assert Without(a.sessions, s.id) == c.sessions;
  }

  lemma NotListed(c: Connection, id: nat)
    requires !c.Lists(id)
    ensures forall i :: 0 <= i < |c.sessions| ==> c.sessions[i].id != id
  {
  }

  lemma AddValid(c: Connection, s: Session)
    requires c.Valid() && s.id < c.nextId
    requires forall i :: 0 <= i < |c.sessions| ==> c.sessions[i].id != s.id
    ensures AddSession(c, s).Valid()
  {
    var ss := c.sessions + [s];
    forall i, j | 0 <= i < j < |ss| ensures ss[i].id != ss[j].id {
      if j == |c.sessions| {
        assert ss[i] == c.sessions[i];
      } else {
        assert ss[i] == c.sessions[i] && ss[j] == c.sessions[j];
      }
    }
  }

  /** The handler entered is the one the session was last switched to. */
  lemma EnterAfterSwitch(c: Connection, s: Session, h: HandlerClass)
    ensures Enter(SwitchHandler(c, s, true, h).value.1, true) == Ok(h)
    ensures Enter(SwitchHandler(c, s, true, h).value.1, false) == Err(RuntimeError(EnterUnlockedMessage))
  {
  }
}
