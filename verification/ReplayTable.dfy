/** The 32-entry table of replay windows, one per source, with eviction of the least recently active source. */
module ReplayTable {
  import opened CText
  import opened ReplayWindow

  const SOURCES := 32

  datatype Source = Source(active: bool, name: Text, window: Window, lastActive: nat)

  type Table = t: seq<Source> | |t| == SOURCES witness seq(SOURCES, _ => Source(false, [], Window.First(0), 0))

  predicate Named(e: Source, name: Text) {
    e.active && e.name == name
  }

  /** find_source_index */
  function Find(t: seq<Source>, name: Text): (i: int)
    ensures -1 <= i < |t|
    ensures i >= 0 ==> Named(t[i], name) && forall j :: 0 <= j < i ==> !Named(t[j], name)
    ensures i == -1 ==> forall j :: 0 <= j < |t| ==> !Named(t[j], name)
  {
    if t == [] then -1
    else
      var n := |t| - 1;
      var i := Find(t[..n], name);
      if i >= 0 then i else if Named(t[n], name) then n else -1
  }

  /** allocate_source_index: the first unused entry; else the first of those idle longest, as the 32-bit
      clock shows it. */
  ghost predicate Victim(t: seq<Source>, now: nat, i: int) {
    && 0 <= i < |t|
    && if exists j :: 0 <= j < |t| && !t[j].active then !t[i].active && forall j :: 0 <= j < i ==> t[j].active
       else forall j :: 0 <= j < |t| ==>
              && Minus(now, t[j].lastActive) <= Minus(now, t[i].lastActive)
              && (j < i ==> Minus(now, t[j].lastActive) < Minus(now, t[i].lastActive))
  }

  /** What replay_protection_accept does when the victim of an allocation is `v`. */
  ghost function Accepted(t: Table, name: Text, s: uint32, now: nat, v: int): (Table, bool)
    requires 0 <= v < SOURCES
  {
    if name == [] then (t, false)
    else
      var i := Find(t, name);
      if i < 0 then (t[v := Source(true, CopyField(name, NAME_MAX), Window.First(s), now)], true)
      else
        var (w, ok) := t[i].window.Accept(s);
        (t[i := t[i].(window := w, lastActive := if ok then now else t[i].lastActive)], ok)
  }

  class ReplaySources {
    const entries: array<Source>

    constructor ()
      ensures entries.Length == SOURCES && fresh(entries) && forall i :: 0 <= i < SOURCES ==> !entries[i].active
    {
      entries := new Source[SOURCES](_ => Source(false, [], Window.First(0), 0));
    }

    method FindSource(name: Text) returns (i: int)
      ensures i == Find(entries[..], name)
    {
      for j := 0 to entries.Length
        invariant forall k :: 0 <= k < j ==> !Named(entries[k], name)
      {
        if Named(entries[j], name) {
          return j;
        }
      }
      return -1;
    }

    method Allocate(now: nat) returns (i: int)
      requires entries.Length == SOURCES
      ensures Victim(entries[..], now, i)
    {
      hide Minus;
      var oldest := -1;
      for j := 0 to SOURCES
        invariant -1 <= oldest < j && (j > 0 ==> oldest >= 0)
        invariant forall k :: 0 <= k < j ==> entries[k].active
        invariant forall k :: 0 <= k < j ==>
                    && Minus(now, entries[k].lastActive) <= Minus(now, entries[oldest].lastActive)
                    && (k < oldest ==> Minus(now, entries[k].lastActive) < Minus(now, entries[oldest].lastActive))
      {
        if !entries[j].active {
          assert entries[..][j] == entries[j];
          return j;
        }
        if oldest < 0 || Minus(now, entries[j].lastActive) > Minus(now, entries[oldest].lastActive) {
          oldest := j;
        }
      }
      return oldest;
    }

    method Accept(name: Text, s: uint32, now: nat) returns (accepted: bool, ghost v: int)
      requires entries.Length == SOURCES
      modifies entries
      ensures Victim(old(entries[..]), now, v)
      ensures (entries[..], accepted) == Accepted(old(entries[..]), name, s, now, v)
    {
      hide Window.Accept, CopyField, Find;
      var oldest := Allocate(now);
      v := oldest;
      if name == [] {
        return false, v;
      }
      var i := FindSource(name);
      if i < 0 {
        entries[oldest] := Source(true, CopyField(name, NAME_MAX), Window.First(s), now);
        return true, v;
      }
      var (w, ok) := entries[i].window.Accept(s);
      entries[i] := entries[i].(window := w, lastActive := if ok then now else entries[i].lastActive);
      return ok, v;
    }
  }

  // Whole runs

  /** What each known source has had accepted since it was allocated. */
  type Histories = map<Text, History>

  /** The window of every active entry tracks its source's history, under a name stored as it is sent. */
  ghost predicate Tracked(t: Table, h: Histories) {
    forall i :: 0 <= i < SOURCES && t[i].active ==>
        t[i].name in h && Tracks(t[i].window, h[t[i].name]) && Clean(t[i].name)
  }

  ghost predicate DistinctNames(t: Table) {
    forall i, j :: 0 <= i < j < SOURCES && t[i].active && t[j].active ==> t[i].name != t[j].name
  }

  /** The active entries are those of the known sources, each once. */
  ghost predicate Inv(t: Table, h: Histories) {
    Tracked(t, h) && DistinctNames(t) && forall n <- h :: Find(t, n) >= 0
  }

  /** Is the number fresh, for a source with unbounded memory? A source heard for the first time always is. */
  ghost predicate Fresh(h: Histories, name: Text, s: uint32) {
    name !in h || h[name].Fresh(s)
  }

  ghost function NextHistories(t: Table, h: Histories, name: Text, s: uint32, v: int): Histories
    requires 0 <= v < SOURCES
  {
    if name in h then h[name := h[name].Accept(s)]
    else (if t[v].active then h - {t[v].name} else h)[name := History.First(s)]
  }

  lemma KnownIffFound(t: Table, h: Histories, name: Text)
    requires Inv(t, h)
    ensures Find(t, name) >= 0 <==> name in h
  {
    hide Find, Tracks, Clean;
  }

  lemma FindKeeps(t: Table, t': Table, k: nat, name: Text)
    requires k < SOURCES && (forall j :: 0 <= j < SOURCES && j != k ==> t'[j] == t[j]) && Find(t, name) >= 0
        && Find(t, name) != k
    ensures Find(t', name) >= 0
  {
    hide Find;
    assert Named(t'[Find(t, name)], name);
  }

  lemma FoundTracks(t: Table, h: Histories, name: Text)
    requires Inv(t, h) && name in h
    ensures var i := Find(t, name);
        i >= 0 && t[i].active && t[i].name == name && Tracks(t[i].window, h[name]) && h[name].Sound()
    ensures forall j :: 0 <= j < SOURCES && j != Find(t, name) && t[j].active ==> t[j].name != name
  {
    hide Find, Clean;
  }

  lemma KnownSourceKeeps(t: Table, h: Histories, name: Text, s: uint32, now: nat)
    requires Inv(t, h) && name in h
    ensures
      var i := Find(t, name);
      i >= 0 &&
      var (w, ok) := t[i].window.Accept(s);
      && ok == h[name].Fresh(s)
      && Inv(t[i := t[i].(window := w, lastActive := if ok then now else t[i].lastActive)],
          h[name := h[name].Accept(s)])
  {
    hide Inv, Find, Tracks, Window.Accept, History.Accept, History.Fresh;
    FoundTracks(t, h, name);
    var i := Find(t, name);
    AcceptExact(t[i].window, h[name], s);
    var (w, ok) := t[i].window.Accept(s);
    UpdateKeeps(t, h, i, t[i].(window := w, lastActive := if ok then now else t[i].lastActive), h[name].Accept(s));
  }

  /** A new window for a known source. */
  lemma UpdateKeeps(t: Table, h: Histories, i: nat, e: Source, h1: History)
    requires Inv(t, h) && i < SOURCES && t[i].active && e.active && e.name == t[i].name && Tracks(e.window, h1)
    ensures Inv(t[i := e], h[e.name := h1])
  {
    hide Find, Tracks, Clean;
    var t', h' := t[i := e], h[e.name := h1];
    FindsAll(t, h, t', h', i);
    forall j | 0 <= j < SOURCES && t'[j].active
      ensures t'[j].name in h' && Tracks(t'[j].window, h'[t'[j].name]) && Clean(t'[j].name)
    {
      assert t[j].active;
    }
  }

  /** Every known source but the one of entry `k` is still found. */
  lemma FindsAll(t: Table, h: Histories, t': Table, h': Histories, k: nat)
    requires (forall n <- h :: Find(t, n) >= 0) && k < SOURCES && t'[k].active
    requires forall j :: 0 <= j < SOURCES && j != k ==> t'[j] == t[j]
    requires forall n <- h' :: n == t'[k].name || (n in h && !Named(t[k], n))
    ensures forall n <- h' :: Find(t', n) >= 0
  {
    hide Find;
    forall n <- h'
      ensures Find(t', n) >= 0
    {
      if n == t'[k].name {
        assert Named(t'[k], n);
      } else {
        assert Named(t[Find(t, n)], n);
        FindKeeps(t, t', k, n);
      }
    }
  }

  lemma NewSourceKeeps(t: Table, h: Histories, name: Text, s: uint32, now: nat, v: nat)
    requires Inv(t, h) && name !in h && Clean(name) && v < SOURCES
    ensures Inv(t[v := Source(true, name, Window.First(s), now)], NextHistories(t, h, name, s, v))
  {
    hide Find, Tracked, DistinctNames, Clean;
    var t', h' := t[v := Source(true, name, Window.First(s), now)], NextHistories(t, h, name, s, v);
    NewTracked(t, h, name, s, now, v);
    FindsAll(t, h, t', h', v);
  }

  lemma NewTracked(t: Table, h: Histories, name: Text, s: uint32, now: nat, v: nat)
    requires Tracked(t, h) && DistinctNames(t) && name !in h && Clean(name) && v < SOURCES
    ensures var t' := t[v := Source(true, name, Window.First(s), now)];
      Tracked(t', NextHistories(t, h, name, s, v)) && DistinctNames(t')
  {
    hide Tracks, Clean;
    FirstTracks(s);
    var t', h' := t[v := Source(true, name, Window.First(s), now)], NextHistories(t, h, name, s, v);
    forall j | 0 <= j < SOURCES && j != v && t[j].active
      ensures t[j].name in h' && h'[t[j].name] == h[t[j].name] && t[j].name != name
    {
      assert t[v].active ==> t[j].name != t[v].name;
    }
  }

  /** Every packet with a clean source name is judged exactly as by an unbounded memory of what was
      accepted since the source was allocated. */
  lemma TableExact(t: Table, h: Histories, name: Text, s: uint32, now: nat, v: int)
    requires Inv(t, h) && name != [] && Clean(name) && 0 <= v < SOURCES
    ensures Accepted(t, name, s, now, v).1 <==> Fresh(h, name, s)
    ensures Inv(Accepted(t, name, s, now, v).0, NextHistories(t, h, name, s, v))
  {
    hide Find, Tracks, Window.Accept, History.Accept, History.Fresh, Inv, CopyField, Clean;
    KnownIffFound(t, h, name);
    StoredIffClean(name);
    if name in h {
      KnownSourceKeeps(t, h, name, s, now);
    } else {
      NewSourceKeeps(t, h, name, s, now, v);
    }
  }

  /** Every entry was active less than 2^32 ticks ago. */
  ghost predicate Timed(t: Table, now: nat) {
    forall i :: 0 <= i < SOURCES ==> t[i].lastActive <= now < t[i].lastActive + MODULUS
  }

  /** A source is forgotten only when 32 other sources, all different, have been idle no longer than it, on
      the 32-bit clock; and that is, while no entry is idle for a full turn of it, have been active since
      it last was. */
  lemma ForgottenOnlyAfterOthers(t: Table, h: Histories, name: Text, s: uint32, now: nat, v: int, x: Text)
      returns (others: set<Text>)
    requires Inv(t, h) && name != [] && Clean(name) && Victim(t, now, v)
    requires x in h && x !in NextHistories(t, h, name, s, v)
    ensures |others| == 32 && x !in others && Find(t, x) >= 0
    ensures forall o <- others :: o == name || exists i ::
        0 <= i < SOURCES && Named(t[i], o) && Later(t, now, i, Find(t, x))
  {
    hide Find, Tracks, Clean, Inv, Victim, NamesBut, Later;
    FoundTracks(t, h, x);
    OnlyVictimForgotten(t, h, name, s, now, v, x);
    VictimIdlest(t, now, v);
    others := NamesBut(t, v, SOURCES) + {name};
    NamesCounted(t, h, v, SOURCES);
    KnownIffFound(t, h, name);
    forall o <- NamesBut(t, v, SOURCES)
      ensures o != name && o != x && exists i ::
          0 <= i < SOURCES && Named(t[i], o) && Later(t, now, i, v)
    {
      var i := NameFrom(t, v, SOURCES, o);
      assert Named(t[i], o);
    }
  }

  lemma NameFrom(t: Table, v: int, n: nat, o: Text) returns (i: nat)
    requires n <= SOURCES && o in NamesBut(t, v, n)
    ensures i < n && i != v && t[i].name == o
  {
    i :| 0 <= i < n && i != v && t[i].name == o;
  }

  /** Entry `i` was idle no longer than entry `v`. */
  ghost predicate Later(t: Table, now: nat, i: int, v: int)
    requires 0 <= i < SOURCES && 0 <= v < SOURCES
  {
    && Minus(now, t[i].lastActive) <= Minus(now, t[v].lastActive)
    && (Timed(t, now) ==> t[i].lastActive >= t[v].lastActive)
  }

  lemma VictimIdlest(t: Table, now: nat, v: int)
    requires Victim(t, now, v) && forall i :: 0 <= i < SOURCES ==> t[i].active
    ensures 0 <= v < SOURCES && forall i :: 0 <= i < SOURCES ==> Later(t, now, i, v)
  {
    forall i | 0 <= i < SOURCES
      ensures Timed(t, now) ==> Minus(now, t[i].lastActive) == now - t[i].lastActive
    {
    }
  }

  lemma OnlyVictimForgotten(t: Table, h: Histories, name: Text, s: uint32, now: nat, v: int, x: Text)
    requires Inv(t, h) && Victim(t, now, v) && x in h && x !in NextHistories(t, h, name, s, v)
    ensures Find(t, x) == v && name !in h && forall i :: 0 <= i < SOURCES ==> t[i].active
  {
    hide Find, Tracks, Clean, Inv;
    FoundTracks(t, h, x);
  }

  ghost function NamesBut(t: seq<Source>, v: int, n: nat): set<Text>
    requires n <= |t|
  {
    set i | 0 <= i < n && i != v :: t[i].name
  }

  lemma {:induction false} NamesCounted(t: Table, h: Histories, v: int, n: nat)
    requires Inv(t, h) && n <= SOURCES && 0 <= v < SOURCES && forall i :: 0 <= i < SOURCES ==> t[i].active
    ensures |NamesBut(t, v, n)| == if v < n then n - 1 else n
  {
    hide Find, Tracked;
    if n > 0 {
      NamesCounted(t, h, v, n - 1);
      if n - 1 == v {
        assert NamesBut(t, v, n) == NamesBut(t, v, n - 1);
      } else {
        assert NamesBut(t, v, n) == NamesBut(t, v, n - 1) + {t[n - 1].name};
        assert t[n - 1].name !in NamesBut(t, v, n - 1);
      }
    }
  }

  /** Whatever was offered to a table, it stores clean names. */
  predicate StoresClean(t: Table) {
    forall i :: 0 <= i < SOURCES && t[i].active ==> Clean(t[i].name)
  }

  lemma OfferStoresClean(t: Table, name: Text, s: uint32, now: nat, v: int)
    requires StoresClean(t) && 0 <= v < SOURCES
    ensures StoresClean(Accepted(t, name, s, now, v).0)
  {
    hide Find, Window.Accept;
  }

  /** Sending the same packet again is refused exactly when its source name is clean. A name that the
      table cannot store as it is never matches its own entry. */
  lemma RepeatRefusedIffClean(t: Table, name: Text, s: uint32, now: nat, v: int, now': nat, v': int)
    requires StoresClean(t) && name != [] && 0 <= v < SOURCES && 0 <= v' < SOURCES
    ensures !Accepted(Accepted(t, name, s, now, v).0, name, s, now', v').1 <==> Clean(name)
  {
    hide Window.Accept, CopyField, Clean, Find;
    StoredIffClean(name);
    OfferStoresClean(t, name, s, now, v);
    var t' := Accepted(t, name, s, now, v).0;
    if Clean(name) {
      var i := Find(t, name);
      AgainRefused(if i < 0 then Window.First(s) else t[i].window, s);
      FirstRefused(s);
      FoundThere(t, t', name, if i < 0 then v else i);
    }
  }

  /** A window does not accept a number just after it was offered it. */
  lemma AgainRefused(w: Window, s: uint32)
    ensures !w.Accept(s).0.Accept(s).1
  {
    hide Shifted;
  }

  lemma FirstRefused(s: uint32)
    ensures !Window.First(s).Accept(s).1
  {
  }

  /** The entry that was changed is the one that is found. */
  lemma FoundThere(t: Table, t': Table, name: Text, k: nat)
    requires k < SOURCES && Named(t'[k], name) && forall j :: 0 <= j < SOURCES && j != k ==> t'[j] == t[j]
    requires Find(t, name) == -1 || Find(t, name) == k
    ensures Find(t', name) == k
  {
    hide Find;
  }

  /** A packet offered to the table, with the entry that is given up if its source is new. */
  datatype Offer = Offer(name: Text, s: uint32, now: nat, victim: int)

  ghost predicate Run(t: Table, h: Histories, offers: seq<Offer>, t': Table, h': Histories)
    decreases |offers|
  {
    if offers == [] then t' == t && h' == h
    else
      var o := offers[0];
      && o.name != [] && Clean(o.name) && Victim(t, o.now, o.victim)
      && Run(Accepted(t, o.name, o.s, o.now, o.victim).0, NextHistories(t, h, o.name, o.s, o.victim), offers[1..], t',
          h')
  }

  /** In every run of packets with clean names, each window tracks the full history of its source, and
      no number is accepted twice from a source while the table knows it. */
  lemma {:induction false} NeverAcceptedTwice(t: Table, h: Histories, offers: seq<Offer>, t': Table, h': Histories)
    requires Inv(t, h) && Run(t, h, offers, t', h')
    ensures Inv(t', h')
    ensures forall name, i, j :: name in h' && 0 <= i < j < |h'[name].accepted| ==>
        h'[name].accepted[i] != h'[name].accepted[j]
    decreases |offers|
  {
    hide Inv, Accepted, NextHistories, Clean, Victim;
    if offers == [] {
      forall name <- h'
        ensures h'[name].Sound()
      {
        FoundTracks(t', h', name);
      }
    } else {
      var o := offers[0];
      assert 0 <= o.victim < SOURCES by { VictimInRange(t, o.now, o.victim); }
      TableExact(t, h, o.name, o.s, o.now, o.victim);
      NeverAcceptedTwice(Accepted(t, o.name, o.s, o.now, o.victim).0, NextHistories(t, h, o.name, o.s, o.victim),
          offers[1..], t', h');
    }
  }

  lemma VictimInRange(t: Table, now: nat, v: int)
    requires Victim(t, now, v)
    ensures 0 <= v < SOURCES
  {
  }

  // Forgetting, over runs

  /** The accepted offers of a run, as names and times. */
  type Log = seq<(Text, nat)>

  /** When a name last had an offer accepted; -1 if never. */
  function LastTime(log: Log, name: Text): int {
    if log == [] then -1
    else if log[|log| - 1].0 == name then log[|log| - 1].1
    else LastTime(log[..|log| - 1], name)
  }

  ghost function Logged(t: Table, log: Log, o: Offer): Log
    requires 0 <= o.victim < SOURCES
  {
    if Accepted(t, o.name, o.s, o.now, o.victim).1 then log + [(o.name, o.now)] else log
  }

  /** Every entry holds the time of its source's last accepted offer. */
  ghost predicate Dated(t: Table, log: Log) {
    forall i :: 0 <= i < SOURCES && t[i].active ==> LastTime(log, t[i].name) == t[i].lastActive
  }

  lemma LastTimeMore(log: Log, name: Text, now: nat, other: Text)
    ensures LastTime(log + [(name, now)], other) == if other == name then now else LastTime(log, other)
  {
    assert (log + [(name, now)])[..|log|] == log;
  }

  lemma OfferDated(t: Table, h: Histories, log: Log, o: Offer)
    requires Inv(t, h) && Dated(t, log) && o.name != [] && Clean(o.name) && 0 <= o.victim < SOURCES
    ensures Dated(Accepted(t, o.name, o.s, o.now, o.victim).0, Logged(t, log, o))
  {
    hide Find, Window.Accept, Tracks, Clean, CopyField, LastTime;
    StoredIffClean(o.name);
    var t', log' := Accepted(t, o.name, o.s, o.now, o.victim).0, Logged(t, log, o);
    forall i | 0 <= i < SOURCES && t'[i].active
      ensures LastTime(log', t'[i].name) == t'[i].lastActive
    {
      LastTimeMore(log, o.name, o.now, t'[i].name);
    }
  }

  ghost predicate LoggedRun(t: Table, h: Histories, log: Log, offers: seq<Offer>, t': Table, h': Histories, log': Log)
    decreases |offers|
  {
    if offers == [] then t' == t && h' == h && log' == log
    else
      var o := offers[0];
      && o.name != [] && Clean(o.name) && Victim(t, o.now, o.victim) && 0 <= o.victim < SOURCES
      && LoggedRun(Accepted(t, o.name, o.s, o.now, o.victim).0, NextHistories(t, h, o.name, o.s, o.victim),
           Logged(t, log, o), offers[1..], t', h', log')
  }

  lemma {:induction false} RunDated(t: Table, h: Histories, log: Log, offers: seq<Offer>, t': Table, h': Histories,
      log': Log)
    requires Inv(t, h) && Dated(t, log) && LoggedRun(t, h, log, offers, t', h', log')
    ensures Inv(t', h') && Dated(t', log')
    decreases |offers|
  {
    hide Inv, Dated, Accepted, NextHistories, Logged, Clean, Victim;
    if offers != [] {
      var o := offers[0];
      TableExact(t, h, o.name, o.s, o.now, o.victim);
      OfferDated(t, h, log, o);
      RunDated(Accepted(t, o.name, o.s, o.now, o.victim).0, NextHistories(t, h, o.name, o.s, o.victim),
        Logged(t, log, o), offers[1..], t', h', log');
    }
  }

  /** After any run, an offer makes the table forget a source only if 32 other names, this offer's among
      them, have had an offer accepted no longer ago than the last accepted one of the forgotten source. */
  lemma ForgottenInRun(t: Table, h: Histories, log: Log, offers: seq<Offer>, t': Table, h': Histories, log': Log,
                       o: Offer, x: Text) returns (others: set<Text>)
    requires Inv(t, h) && Dated(t, log) && LoggedRun(t, h, log, offers, t', h', log')
    requires o.name != [] && Clean(o.name) && Victim(t', o.now, o.victim) && 0 <= o.victim < SOURCES
    requires x in h' && x !in NextHistories(t', h', o.name, o.s, o.victim)
    ensures |others| == 32 && x !in others && LastTime(log', x) >= 0
    ensures forall y <- others :: Minus(o.now, LastTime(Logged(t', log', o), y)) <= Minus(o.now, LastTime(log', x))
    ensures Timed(t', o.now) ==> forall y <- others :: LastTime(Logged(t', log', o), y) >= LastTime(log', x)
  {
    hide Find, Inv, LoggedRun, Accepted, Logged, Clean, Victim, LastTime, NextHistories, Minus;
    RunDated(t, h, log, offers, t', h', log');
    others := ForgottenOnlyAfterOthers(t', h', o.name, o.s, o.now, o.victim, x);
    FoundTracks(t', h', x);
    NewIsAccepted(t', h', log', o, x);
    NoAge(o.now);
    forall y <- others
      ensures Minus(o.now, LastTime(Logged(t', log', o), y)) <= Minus(o.now, LastTime(log', x))
      ensures Timed(t', o.now) ==> LastTime(Logged(t', log', o), y) >= LastTime(log', x)
    {
      LastTimeMore(log', o.name, o.now, y);
    }
  }

  lemma NoAge(now: nat)
    ensures Minus(now, now) == 0
  {
  }

  lemma NewIsAccepted(t: Table, h: Histories, log: Log, o: Offer, x: Text)
    requires Inv(t, h) && o.name != [] && Clean(o.name) && Victim(t, o.now, o.victim) && 0 <= o.victim < SOURCES
    requires x in h && x !in NextHistories(t, h, o.name, o.s, o.victim)
    ensures Logged(t, log, o) == log + [(o.name, o.now)]
  {
    hide Find, Inv, Accepted, Clean, Victim;
    TableExact(t, h, o.name, o.s, o.now, o.victim);
  }
}
