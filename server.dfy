/** The process-wide state of app/main.go: the user counters that the accept loop raises
    and each worker's deferred exit lowers, and the shutdown flag that only the `quit`
    console command sets. Goroutines and atomics become explicit, sequential events. */
module Server {
  import opened Wrappers
  import opened Bytes
  import opened Http
  import opened Connection

  // ---------------------------------------------------------------------------
  // Console commands

  datatype Command = Status | Quit | Help | Blank | Unknown(text: Bytes)

  /** A console line as `handleCommands` compares it: lower-cased, then trimmed, so it
      has no upper-case letter and no white space at either end. */
  function NormalizeCommand(line: Bytes): (command: Bytes)
    ensures NoUpper(command) && Trimmed(command)
  {
    var lower := ToLower(line);
    ToLowerBytes(line);
    TrimSpaceIsSlice(lower);
    TrimSpace(lower)
  }

  /** The `switch` of `handleCommands`. An unknown command is reported as the
      normalised line, which is never empty. */
  function ParseCommand(line: Bytes): (c: Command)
    ensures c.Unknown? ==> c.text != [] && NoUpper(c.text) && Trimmed(c.text)
  {
    var command := NormalizeCommand(line);
    if command == "status" then Status
    else if command == "quit" then Quit
    else if command == "help" then Help
    else if command == [] then Blank
    else Unknown(command)
  }

  /** A line is ignored exactly when it holds nothing but white space. */
  lemma BlankOnlyForSpace(line: Bytes)
    ensures ParseCommand(line) == Blank <==> AllSpace(line)
  {
    var lower := ToLower(line);
    ToLowerBytes(line);
    if AllSpace(line) {
      assert AllSpace(lower);
      TrimLeftOfBlanks(lower, []);
      assert lower + [] == lower;
    }
    if NormalizeCommand(line) == [] {
      TrimSpaceIsSlice(lower);
      var i, j :| 0 <= i <= j <= |lower| && TrimSpace(lower) == lower[i..j]
        && AllSpace(lower[..i]) && AllSpace(lower[j..]);
      forall k | 0 <= k < |line|
        ensures IsSpace(line[k])
      {
        if k < i {
          assert lower[k] == lower[..i][k];
        } else {
          assert lower[k] == lower[j..][k - j];
        }
      }
    }
  }

  /** Case and surrounding blanks do not matter: ` QUIT ` and `Quit` are both `quit`. */
  lemma QuitIgnoresCaseAndBlanks(pre: Bytes, word: Bytes, post: Bytes)
    requires AllSpace(pre) && AllSpace(post)
    requires ToLower(word) == "quit"
    ensures ParseCommand(pre + word + post) == Quit
  {
    ToLowerAppend(pre + word, post);
    ToLowerAppend(pre, word);
    SpaceHasNoUpper(pre);
    SpaceHasNoUpper(post);
    ToLowerOfLower(pre);
    ToLowerOfLower(post);
    assert ToLower(pre + word + post) == pre + "quit" + post;
    TrimSpaceAround(pre, "quit", post);
  }

  lemma SpaceHasNoUpper(s: Bytes)
    requires AllSpace(s)
    ensures NoUpper(s)
  {
  }

  /** The line is the `quit` command. */
  predicate IsQuit(line: Bytes) {
    NormalizeCommand(line) == "quit"
  }

  lemma ParseQuit(line: Bytes)
    ensures ParseCommand(line) == Quit <==> IsQuit(line)
  {
  }

  /** The index of the first `quit` line, if there is one. */
  function FirstQuit(lines: seq<Bytes>): (r: Option<nat>)
    ensures r.Some? ==> r.value < |lines| && IsQuit(lines[r.value])
    ensures forall i :: 0 <= i < |lines| && (r.None? || i < r.value) ==> !IsQuit(lines[i])
  {
    if lines == [] then None
    else if IsQuit(lines[0]) then Some(0)
    else match FirstQuit(lines[1..])
      case None => None
      case Some(i) => Some(i + 1)
  }

  /** The first `quit` is the one with no `quit` before it. */
  lemma {:induction false} FirstQuitAt(lines: seq<Bytes>, c: nat)
    requires c <= |lines|
    requires forall i :: 0 <= i < c ==> !IsQuit(lines[i])
    requires c < |lines| ==> IsQuit(lines[c])
    ensures FirstQuit(lines) == if c < |lines| then Some(c) else None
  {
    if lines != [] && c > 0 {
      assert !IsQuit(lines[0]);
      FirstQuitAt(lines[1..], c - 1);
    }
  }

  // ---------------------------------------------------------------------------
  // The shared counters and flag

  class ServerState {
    var total: nat       // userCount
    var active: nat      // activeUsers
    var shutdown: bool   // shutdown == 1
    /** The user numbers of the connections whose workers have not yet returned. */
    ghost var live: set<nat>

    ghost predicate Valid()
      reads this
    {
      active == |live| && active <= total && forall id :: id in live ==> 1 <= id <= total
    }

    constructor ()
      ensures Valid() && total == 0 && active == 0 && !shutdown && live == {}
    {
      total, active, shutdown, live := 0, 0, false, {};
    }

    /** One round of the accept loop in `main` with a client waiting: stop when the flag
        is set; otherwise count the new user (numbered from 1) as accepted and active. */
    method Accept() returns (id: Option<nat>)
      requires Valid()
      modifies this
      ensures Valid() && shutdown == old(shutdown)
      ensures old(shutdown) ==> id == None && total == old(total) && active == old(active) && live == old(live)
      ensures !old(shutdown) ==> id == Some(old(total) + 1) && id.value !in old(live)
      ensures !old(shutdown) ==> total == old(total) + 1 && active == old(active) + 1 && live == old(live) + {id.value}
    {
      if shutdown {
        return None;
      }
      total := total + 1;
      active := active + 1;
      id := Some(total);
      live := live + {total};
    }

    /** The deferred function of `handleConnection`: one worker has returned. */
    method ConnClosed(id: nat)
      requires Valid() && id in live
      modifies this
      ensures Valid()
      ensures active == old(active) - 1 && live == old(live) - {id}
      ensures total == old(total) && shutdown == old(shutdown)
    {
      active := active - 1;
      live := live - {id};
    }

    /** One console line: `quit` sets the flag and ends the console loop; every other
        command leaves the state as it is. */
    method Command(line: Bytes) returns (stop: bool)
      requires Valid()
      modifies this
      ensures Valid()
      ensures stop <==> IsQuit(line)
      ensures shutdown == (old(shutdown) || stop)
      ensures total == old(total) && active == old(active) && live == old(live)
    {
      ParseQuit(line);
      match ParseCommand(line) {
        case Quit =>
          shutdown := true;
          return true;
        case _ =>
          return false;
      }
    }

    /** `handleCommands` over the console's lines: it reads up to and including the
        first `quit`, or all of them when there is none; only a `quit` sets the flag. */
    method HandleCommands(lines: seq<Bytes>) returns (consumed: nat)
      requires Valid()
      modifies this
      ensures Valid()
      ensures var q := FirstQuit(lines);
        consumed == if q.Some? then q.value + 1 else |lines|
      ensures shutdown == (old(shutdown) || FirstQuit(lines).Some?)
      ensures total == old(total) && active == old(active) && live == old(live)
    {
      consumed := 0;
      while consumed < |lines|
        invariant Valid() && consumed <= |lines|
        invariant forall i :: 0 <= i < consumed ==> !IsQuit(lines[i])
        invariant shutdown == old(shutdown)
        invariant total == old(total) && active == old(active) && live == old(live)
      {
        var stop := Command(lines[consumed]);
        if stop {
          FirstQuitAt(lines, consumed);
          consumed := consumed + 1;
          return;
        }
        consumed := consumed + 1;
      }
      FirstQuitAt(lines, consumed);
    }
  }

  /** The worker goroutine: `handleConnection` on connection `id`, whose deferred exit
      lowers the active count exactly once on whichever path the loop returns by. The
      console is the only other party that touches the flag. While the connection is
      open it handles the lines `console`, which fall between iterations `k - 1` and `k`
      of the worker's loop; once the flag is set, the console has already returned and
      handles nothing. The worker sees the flag from its first iteration when it is
      already set, from iteration `k` when a `quit` among `console` sets it, and never
      otherwise, so it stops for shutdown only when the flag is set. */
  method HandleConnection(state: ServerState, id: nat, data: Bytes, files: Store,
                          console: seq<Bytes>, k: nat, writeFails: set<nat>)
    returns (out: Bytes, store: Store, reason: CloseReason)
    requires state.Valid() && id in state.live
    modifies state
    ensures state.Valid()
    ensures state.shutdown == (old(state.shutdown) || FirstQuit(console).Some?)
    ensures var seen := if old(state.shutdown) then Some(0) else if state.shutdown then Some(k) else None;
      Session(out, store, reason) == Run(data, 0, files, 0, seen, writeFails)
    ensures old(state.shutdown) ==> out == [] && store == files && reason == Shutdown
    ensures reason == Shutdown ==> state.shutdown
    ensures state.active == old(state.active) - 1 && state.live == old(state.live) - {id}
    ensures state.total == old(state.total)
  {
    var seen := Some(0);
    if !state.shutdown {
      var consumed := state.HandleCommands(console);
      seen := if state.shutdown then Some(k) else None;
    }
    out, store, reason := ServeConnection(data, files, seen, writeFails);
    state.ConnClosed(id);
  }

  /** `n` clients connect and all of them leave: every one is counted, and none is
      still active. */
  method ConnectAndLeave(n: nat) returns (total: nat, active: nat)
    ensures total == n && active == 0
  {
    var state := new ServerState();
    var i := 0;
    while i < n
      invariant 0 <= i <= n
      invariant state.Valid() && !state.shutdown
      invariant state.total == i && forall id :: id in state.live <==> 1 <= id <= i
    {
      var id := state.Accept();
      i := i + 1;
    }
    while i > 0
      invariant 0 <= i <= n
      invariant state.Valid() && state.total == n
      invariant forall id :: id in state.live <==> 1 <= id <= i
    {
      state.ConnClosed(i);
      i := i - 1;
    }
    assert state.live == {};
    return state.total, state.active;
  }
}
