/**
 * The server object: what starting and stopping check and reset, and how connections become
 * sessions.
 */
module ServerObject {
  import opened Text
  import opened Http
  import opened Routes
  import opened Session
  import opened Server
  import opened Steps
  import opened SessionObject
  import PathTrie

  /** The first thing wrong with the options, in the order they are checked. */
  function OptionError(o: Options): Option<string> {
    if o.threads == 0 then Some("thread count should > 0")
    else if o.maxRequestSize == 0 then Some("max request should > 0")
    else if o.address == "" then Some("addr is empty")
    else None
  }

  predicate Usable(o: Options) {
    o.threads > 0 && o.maxRequestSize > 0 && o.address != ""
  }

  /** Usable options pass, and of several bad ones the first is named. */
  lemma OptionErrorIs(o: Options)
    ensures OptionError(o) == None <==> Usable(o)
    ensures o.threads == 0 ==> OptionError(o) == Some("thread count should > 0")
    ensures o.threads > 0 && o.maxRequestSize == 0 ==> OptionError(o) == Some("max request should > 0")
    ensures o.threads > 0 && o.maxRequestSize > 0 && o.address == "" ==> OptionError(o) == Some("addr is empty")
  {
  }

  /** What the system answers when it is asked for a listening socket, step by step. */
  datatype Outcomes = Outcomes(address: Option<string>, open: Option<string>, setup: Option<string>)

  const ALREADY_OPEN := "Already open"

  /** The first thing that keeps a server from starting, if anything does. */
  function StartError(o: Options, open: bool, system: Outcomes): Option<string> {
    if OptionError(o).Some? then OptionError(o)
    else if system.address.Some? then system.address
    else if open then Some(ALREADY_OPEN)
    else if system.open.Some? then system.open
    else system.setup
  }

  /** Nothing keeps usable options from starting but the system or a socket that is still open. */
  lemma StartErrorIs(o: Options, open: bool, system: Outcomes)
    ensures StartError(o, open, system) == None <==> Usable(o) && !open && system == Outcomes(None, None, None)
    ensures !Usable(o) ==> StartError(o, open, system) == OptionError(o)
    ensures Usable(o) && system.address != None ==> StartError(o, open, system) == system.address
    ensures Usable(o) && system.address == None && open ==> StartError(o, open, system) == Some(ALREADY_OPEN)
    ensures Usable(o) && !open && system.address == None && system.open != None ==>
        StartError(o, open, system) == system.open
    ensures Usable(o) && !open && system.address == None && system.open == None ==>
        StartError(o, open, system) == system.setup
  {
  }

  /** A thread that serves completions until it is joined. */
  class Worker {
    var joinable: bool

    constructor ()
      ensures joinable
    {
      joinable := true;
    }

    method Join()
      modifies this
      ensures !joinable
    {
      joinable := false;
    }
  }

  class HttpServerImpl {
    const options: Options
    const router: PathTrie.Router<nat>
    const statistics: Statistics
    /** The session id generator. */
    var lastId: nat
    /** Threads started beside the one that runs the server. */
    var pool: seq<Worker>
    /** The io context serves no completions. */
    var stopped: bool
    /** The acceptor has its socket. */
    var open: bool
    /** An accept is pending. */
    var accepting: bool

    /**
     * A stopped server has no pool and no socket, only one with a socket has a pool, and one that
     * accepts connections has exactly the threads the options ask for, its caller's included.
     */
    ghost predicate Valid()
      reads this, router, router.nodes.Values
    {
      && router.Valid()
      && (stopped ==> !open)
      && (!open ==> pool == [] && !accepting)
      && (accepting ==> |pool| + 1 == options.threads)
    }

    /** What sessions of this server run with. */
    ghost function Cfg(): Config
      reads this, router, router.nodes.Values
    {
      Config(options, router.Content())
    }

    constructor (options: Options)
      ensures Valid() && this.options == options && Cfg() == Config(options, map[])
      ensures fresh(router) && fresh(router.nodes.Values) && fresh(statistics)
      ensures stopped && lastId == 0 && statistics.Value() == ZERO
    {
      this.options := options;
      router := new PathTrie.Router<nat>();
      statistics := new Statistics();
      lastId, pool, stopped, open, accepting := 0, [], true, false, false;
    }

    method RegisterHandler(path: string, handler: Option<nat>) returns (outcome: Checked)
      requires Valid()
      modifies router`nodes, router.nodes.Values
      ensures Valid() && outcome == Check(path, handler)
      ensures fresh(router.nodes.Values - old(router.nodes.Values))
      ensures Cfg() == Config(options, Register(old(Cfg()).routes, Registration(path, handler)))
    {
      outcome := router.Insert(path, handler);
    }

    /**
     * Starts a run. A refused option changes nothing; once past the options, ids and counters start
     * from 0; a successful start has as many threads serving completions as the options ask for; a
     * server that still has its socket cannot be started again.
     */
    method Run(system: Outcomes) returns (error: Option<string>)
      requires Valid()
      modifies this, statistics
      ensures Valid() && error == StartError(options, old(open), system)
      ensures error == None <==> Usable(options) && !old(open) && system == Outcomes(None, None, None)
      ensures
        if Usable(options) then statistics.Value() == ZERO && lastId == 0 && !stopped
        else statistics.Value() == old(statistics.Value()) && lastId == old(lastId) && stopped == old(stopped)
      ensures error.None? ==> open && accepting && |pool| + 1 == options.threads
      ensures error.None? ==> fresh(set w | w in pool) && forall w :: w in pool ==> w.joinable
      ensures error.Some? ==> pool == old(pool) && accepting == old(accepting)
    {
      hide Known;
      if options.threads == 0 {
        return Some("thread count should > 0");
      }
      if options.maxRequestSize == 0 {
        return Some("max request should > 0");
      }
      if options.address == "" {
        return Some("addr is empty");
      }
      lastId := 0;
      statistics.ResetAll();
      stopped := false;
      error := Listen(system);
      if error.None? {
        StartPool();
      }
    }

    /** Opens the acceptor, sets it up, binds it and listens. */
    method Listen(system: Outcomes) returns (error: Option<string>)
      modifies this`open
      ensures OptionError(options).None? ==> error == StartError(options, old(open), system)
      ensures open == (old(open) || (system.address.None? && system.open.None?))
      ensures error.None? ==> open && !old(open)
    {
      if system.address.Some? {
        return system.address;
      }
      if open {
        return Some(ALREADY_OPEN);
      }
      if system.open.Some? {
        return system.open;
      }
      open := true;
      error := system.setup;
    }

    /** Schedules the first accept and starts all threads but the caller's own. */
    method StartPool()
      requires open && !stopped && pool == [] && options.threads >= 1
      modifies this`pool, this`accepting
      ensures accepting && |pool| + 1 == options.threads
      ensures fresh(set w | w in pool) && forall w :: w in pool ==> w.joinable
    {
      accepting := true;
      var i := 0;
      while i < options.threads - 1
        invariant 0 <= i <= options.threads - 1 && |pool| == i && accepting
        invariant fresh(set w | w in pool) && forall w :: w in pool ==> w.joinable
      {
        var worker := new Worker();
        pool := pool + [worker];
        i := i + 1;
      }
    }

    /**
     * Whatever state the server is in, afterwards it is stopped, every thread of its pool has been
     * joined, no socket is left, and it can be started again. The pool is looked at only if the io
     * context still runs; that this is enough is part of `Valid`.
     */
    method Stop()
      requires Valid()
      modifies this`pool, this`stopped, this`open, this`accepting, set w | w in pool
      ensures Valid() && stopped && pool == [] && !open && !accepting
      ensures forall w :: w in old(pool) ==> !w.joinable
    {
      if !stopped {
        stopped := true;
        JoinAll(pool);
        pool := [];
      }
      if open {
        open := false;
        accepting := false;
      }
    }

    /**
     * A connection becomes a session under the next id, counted and with its first read scheduled;
     * a failed accept changes nothing. Either way the acceptor is armed again.
     */
    method OnAccept(failed: bool) returns (session: HttpSession?)
      requires Valid() && accepting
      modifies this`lastId, this`accepting, statistics
      ensures Valid() && accepting
      ensures failed ==> session == null && lastId == old(lastId) && statistics.Value() == old(statistics.Value())
      ensures !failed ==>
          && session != null && fresh(session) && session.Valid()
          && session.cfg == Cfg() && session.router == router && session.statistics == statistics
          && session.id == lastId == old(lastId) + 1
          && session.path == [CountSession] + [PostFirstRead]
          && session.model == NewSession(lastId).(at := Idle, pending := Dispatched)
          && Share(session.model) == ZERO.(sessions := 1)
          && statistics.Value() == Plus(old(statistics.Value()), ZERO.(sessions := 1))
    {
      hide Good, Replay, Share, Known, Plus;
      session := null;
      if !failed {
        lastId := lastId + 1;
        session := new HttpSession(options, lastId, router, statistics);
        session.Run();
      }
      accepting := true;
    }
  }

  method JoinAll(pool: seq<Worker>)
    modifies set w | w in pool
    ensures forall w :: w in pool ==> !w.joinable
  {
    for i := 0 to |pool|
      invariant forall j :: 0 <= j < i ==> !pool[j].joinable
    {
      if pool[i].joinable {
        pool[i].Join();
      }
    }
  }
}
