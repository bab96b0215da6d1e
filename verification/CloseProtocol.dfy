/** How a connection is closed: every handler runs under one lock, so a run is any sequence of them. */
module CloseProtocol {

  datatype State = Open | RequestClose | Closing | Closed

  /** How an operation on the socket ended. */
  datatype Error = Success | Aborted | Other

  /** What may happen to a connection. Accept stands for the server taking it on. */
  datatype Event =
    | Accept(speaksFirst: bool, throws: bool, logError: bool)
    | Close
    | CloseTask
    | Release
    | Stop
    | Write(throws: bool)
    | Written(error: Error)
    | WriteTimeout
    | ReadTimeout
    | HeaderRead(error: Error, badSize: bool, throws: bool, logError: bool)
    | PacketRead(error: Error, makes: bool, closes: bool, throws: bool, logError: bool)
    | Refer
    | Unrefer

  /** What an event may make of the state. Closing is asked for by an event of its own, by what goes wrong and
      by the end of a write that closing had to wait for; only the close task goes on from there. */
  ghost predicate Turns(s: State, e: Event, t: State) {
    match e
    case Close => t == if s == Closed then Closed else RequestClose
    case CloseTask => if s == RequestClose then t == Closing || t == Closed else t == s
    case Release => t == s
    case Stop => t == s
    case Write(_) => t == s
    case Refer => t == s
    case Unrefer => t == s
    case _ => t == s || (s != Closed && t == RequestClose)
  }

  ghost function References(e: Event, n: nat): nat {
    if e.Refer? then n + 1 else if e.Unrefer? && n > 0 then n - 1 else n
  }

  /** The states before the first event, after it, and so on. */
  ghost predicate Trace(states: seq<State>, events: seq<Event>) {
    |states| == |events| + 1 && forall k | 0 <= k < |events| :: Turns(states[k], events[k], states[k + 1])
  }

  lemma TraceBegun(s: State, e: Event, states: seq<State>, events: seq<Event>)
    requires Trace(states, events) && Turns(s, e, states[0])
    ensures Trace([s] + states, [e] + events)
  {
    forall k | 0 <= k < |events| + 1 ensures Turns(([s] + states)[k], ([e] + events)[k], ([s] + states)[k + 1]) {
      if k > 0 {
        assert ([s] + states)[k] == states[k - 1] && ([e] + events)[k] == events[k - 1];
      }
    }
  }

  /** Once closing is asked for, the connection is open no more, and what is asked for last is under way until
      a close task runs. */
  lemma {:induction false} ClosingIsForGood(states: seq<State>, events: seq<Event>, k: nat, m: nat)
    requires Trace(states, events) && k < m <= |events| && events[k] == Close
    ensures states[m] != Open
    ensures (forall j | k < j < m :: !events[j].CloseTask?) && states[k] != Closed ==> states[m] == RequestClose
    decreases m
  {
    assert Turns(states[m - 1], events[m - 1], states[m]);
    if m - 1 > k {
      ClosingIsForGood(states, events, k, m - 1);
    }
  }

  /** The connection with what is queued for it: close tasks for the dispatcher, another try to release it,
      the stop operation, and reads and writes whose handlers have yet to run. */
  class Connection {
    var state: State
    var pendingWrite: int
    var pendingRead: int
    var writeError: bool
    var readError: bool
    var receivedFirst: bool
    var hasProtocol: bool
    var socketOpen: bool
    var refCount: nat

    var closeTasks: nat
    var releaseRetries: nat
    var stopOperations: nat
    var readsInFlight: nat
    var writesInFlight: nat

    ghost var protocolReleases: nat
    ghost var connectionReleases: nat

    constructor ()
      ensures Valid() && state == Open && protocolReleases == 0 && connectionReleases == 0
      ensures pendingWrite == pendingRead == readsInFlight == writesInFlight == refCount == 0
      ensures !receivedFirst && !hasProtocol
    {
      state, pendingWrite, pendingRead, writeError, readError := Open, 0, 0, false, false;
      receivedFirst, hasProtocol, socketOpen, refCount := false, false, true, 0;
      closeTasks, releaseRetries, stopOperations, readsInFlight, writesInFlight := 0, 0, 0, 0, 0;
      protocolReleases, connectionReleases := 0, 0;
    }

    /** What every handler keeps. A close task is queued exactly while closing is requested; the connection is
        on its way to be released, or has been, exactly once it is closed; the protocol is released at most
        once, and by the time the connection closes; a connection that still has to wait is waiting for a
        write. */
    ghost predicate Valid()
      reads this
    {
      0 <= pendingWrite <= 1 && 0 <= pendingRead <= 1 &&
      closeTasks == (if state == RequestClose then 1 else 0) &&
      releaseRetries + stopOperations + connectionReleases == (if state == Closed then 1 else 0) &&
      protocolReleases <= 1 && (hasProtocol ==> protocolReleases == 0) &&
      (state == Open ==> protocolReleases == 0 && !writeError && !readError && socketOpen &&
                         writesInFlight <= pendingWrite && readsInFlight <= pendingRead &&
                         (receivedFirst ==> hasProtocol)) &&
      (state == Closing || state == Closed ==> !hasProtocol) &&
      (!socketOpen ==> pendingWrite == 0 && pendingRead == 0) &&
      (state == Closing ==> pendingWrite == 1 && !writeError && socketOpen) &&
      (state == Closed ==> !socketOpen)
    }

    /** Closed stays closed, what is released is not released again, and nothing opens again. */
    twostate predicate Onward()
      reads this
    {
      (old(state) == Closed ==> state == Closed && protocolReleases == old(protocolReleases)) &&
      (old(state) != Open ==> state != Open) &&
      protocolReleases >= old(protocolReleases) && connectionReleases >= old(connectionReleases)
    }

    // ----- Closing -----

    /** closeConnection: closing is requested, by one task, unless it already is or is over. */
    method CloseConnection()
      modifies this`state, this`closeTasks
      ensures state == if old(state) == Closed then Closed else RequestClose
      ensures closeTasks == old(closeTasks) + if old(state) == Open || old(state) == Closing then 1 else 0
      ensures old(Valid()) ==> Valid() && Onward()
    {
      if state == Closed || state == RequestClose {
        return;
      }
      state := RequestClose;
      closeTasks := closeTasks + 1;
    }

    method CloseSocket()
      modifies this`pendingRead, this`pendingWrite, this`socketOpen
      ensures !socketOpen
      ensures if old(socketOpen) then pendingRead == 0 && pendingWrite == 0
              else pendingRead == old(pendingRead) && pendingWrite == old(pendingWrite)
    {
      if socketOpen {
        pendingRead := 0;
        pendingWrite := 0;
        socketOpen := false;
      }
    }

    /** Tried again later while someone still refers to the connection. */
    method ReleaseConnection()
      modifies this`releaseRetries, this`stopOperations
      ensures releaseRetries == old(releaseRetries) + if refCount > 0 then 1 else 0
      ensures stopOperations == old(stopOperations) + if refCount > 0 then 0 else 1
    {
      if refCount > 0 {
        releaseRetries := releaseRetries + 1;
      } else {
        stopOperations := stopOperations + 1;
      }
    }

    /** closeConnectionTask, as the dispatcher runs it. */
    method CloseConnectionTask()
      requires Valid() && closeTasks > 0
      modifies this`state, this`closeTasks, this`hasProtocol, this`protocolReleases, this`pendingRead,
        this`pendingWrite, this`socketOpen, this`releaseRetries, this`stopOperations
      ensures Valid() && Onward()
      ensures state == if old(pendingWrite) == 0 || old(writeError) then Closed else Closing
      ensures !hasProtocol && protocolReleases == old(protocolReleases) + if old(hasProtocol) then 1 else 0
      ensures state == Closing ==>
                socketOpen && pendingRead == old(pendingRead) && pendingWrite == old(pendingWrite) &&
                releaseRetries == stopOperations == 0
      ensures state == Closed ==>
                !socketOpen && releaseRetries == (if refCount > 0 then 1 else 0) && stopOperations == 1 - releaseRetries
    {
      closeTasks := closeTasks - 1;
      if state != RequestClose {
        return;
      }
      if hasProtocol {
        protocolReleases := protocolReleases + 1;
        hasProtocol := false;
      }
      state := Closing;
      if pendingWrite == 0 || writeError {
        CloseSocket();
        ReleaseConnection();
        state := Closed;
      }
    }

    method RetryRelease()
      requires Valid() && releaseRetries > 0
      modifies this`releaseRetries, this`stopOperations
      ensures Valid() && Onward()
      ensures releaseRetries == (if refCount > 0 then 1 else 0) && stopOperations == 1 - releaseRetries
    {
      releaseRetries := releaseRetries - 1;
      ReleaseConnection();
    }

    /** onStopOperation: the manager lets go of the connection. */
    method OnStopOperation()
      requires Valid() && stopOperations > 0
      modifies this`stopOperations, this`connectionReleases
      ensures Valid() && Onward() && connectionReleases == 1 && stopOperations == 0
    {
      stopOperations := stopOperations - 1;
      connectionReleases := connectionReleases + 1;
    }

    // ----- Writing -----

    method Send(throws: bool) returns (ok: bool, written: bool)
      requires Valid()
      modifies this`pendingWrite, this`writesInFlight
      ensures Valid() && (ok <==> state == Open && !writeError)
      ensures written <==> ok && old(pendingWrite) == 0
      ensures pendingWrite == old(pendingWrite) + if written then 1 else 0
      ensures writesInFlight == old(writesInFlight) + if written && !throws then 1 else 0
    {
      written := false;
      if state != Open || writeError {
        return false, written;
      }
      if pendingWrite == 0 {
        written := true;
        pendingWrite := pendingWrite + 1;
        if !throws {
          writesInFlight := writesInFlight + 1;
        }
      }
      return true, written;
    }

    method HandleWriteError(error: Error)
      requires error != Success
      modifies this`state, this`closeTasks, this`writeError
      ensures writeError && state == if error == Aborted || old(state) == Closed then old(state) else RequestClose
      ensures closeTasks ==
              old(closeTasks) + if error == Other && (old(state) == Open || old(state) == Closing) then 1 else 0
    {
      if error == Other {
        CloseConnection();
      }
      writeError := true;
    }

    /** onWriteOperation: a write has ended. Unless all is well the socket is closed and closing requested. */
    method OnWriteOperation(error: Error)
      requires Valid() && writesInFlight > 0
      modifies this`state, this`closeTasks, this`writeError, this`writesInFlight, this`pendingRead,
        this`pendingWrite, this`socketOpen
      ensures Valid() && Onward() && writesInFlight == old(writesInFlight) - 1
      ensures writeError == (old(writeError) || error != Success)
      ensures old(state) == Open && error == Success ==>
                state == Open && pendingWrite == old(pendingWrite) - 1 == 0 && pendingRead == old(pendingRead)
      ensures !(old(state) == Open && error == Success) ==>
                state == (if old(state) == Closed then Closed else RequestClose) && !socketOpen
    {
      writesInFlight := writesInFlight - 1;
      if error != Success {
        HandleWriteError(error);
      }
      if state != Open || writeError {
        CloseSocket();
        CloseConnection();
        return;
      }
      pendingWrite := pendingWrite - 1;
    }

    method OnWriteTimeout()
      requires Valid()
      modifies this`state, this`closeTasks, this`pendingRead, this`pendingWrite, this`socketOpen
      ensures Valid() && Onward()
      ensures old(pendingWrite > 0 || writeError) ==>
                state == (if old(state) == Closed then Closed else RequestClose) && !socketOpen
      ensures !old(pendingWrite > 0 || writeError) ==>
                unchanged(this`state, this`closeTasks, this`pendingRead, this`pendingWrite, this`socketOpen)
    {
      if pendingWrite > 0 || writeError {
        CloseSocket();
        CloseConnection();
      }
    }

    // ----- Reading -----

    method HandleReadError(error: Error)
      modifies this`state, this`closeTasks, this`readError
      ensures readError && state == if error == Aborted || old(state) == Closed then old(state) else RequestClose
      ensures closeTasks ==
              old(closeTasks) + if error != Aborted && (old(state) == Open || old(state) == Closing) then 1 else 0
    {
      if error != Aborted {
        CloseConnection();
      }
      readError := true;
    }

    method OnReadTimeout()
      requires Valid()
      modifies this`state, this`closeTasks, this`pendingRead, this`pendingWrite, this`socketOpen
      ensures Valid() && Onward()
      ensures old(pendingRead > 0 || readError) ==>
                state == (if old(state) == Closed then Closed else RequestClose) && !socketOpen
      ensures !old(pendingRead > 0 || readError) ==>
                unchanged(this`state, this`closeTasks, this`pendingRead, this`pendingWrite, this`socketOpen)
    {
      if pendingRead > 0 || readError {
        CloseSocket();
        CloseConnection();
      }
    }

    /** Starts a read. It may throw, which closes the connection the first time it does in the whole program. */
    method StartRead(throws: bool, logError: bool)
      modifies this`pendingRead, this`readsInFlight, this`state, this`closeTasks
      ensures pendingRead == old(pendingRead) + 1 && readsInFlight == old(readsInFlight) + if throws then 0 else 1
      ensures if throws && logError
              then state == (if old(state) == Closed then Closed else RequestClose) &&
                   closeTasks == old(closeTasks) + (if old(state) == Open || old(state) == Closing then 1 else 0)
              else state == old(state) && closeTasks == old(closeTasks)
    {
      pendingRead := pendingRead + 1;
      if !throws {
        readsInFlight := readsInFlight + 1;
      } else if logError {
        CloseConnection();
      }
    }

    /** acceptConnection, with the protocol where the server speaks first. */
    method AcceptConnection(speaksFirst: bool, throws: bool, logError: bool)
      requires Valid() && state == Open && pendingRead == 0 && !receivedFirst && !hasProtocol
      modifies this`pendingRead, this`readsInFlight, this`state, this`closeTasks, this`hasProtocol
      ensures Valid() && Onward() && hasProtocol == speaksFirst && pendingRead == 1
      ensures readsInFlight == old(readsInFlight) + if throws then 0 else 1
      ensures state == if throws && logError then RequestClose else Open
    {
      if speaksFirst {
        hasProtocol := true;
      }
      StartRead(throws, logError);
    }

    /** parseHeader: the size of a packet has been read, or could not be, or makes no sense. */
    method ParseHeader(error: Error, badSize: bool, throws: bool, logError: bool)
      requires Valid() && readsInFlight > 0
      modifies this`state, this`closeTasks, this`readError, this`readsInFlight, this`pendingRead
      ensures Valid() && Onward() && pendingRead == old(pendingRead)
      ensures readError == (old(readError) || error != Success || badSize)
      ensures var good := old(state) == Open && error == Success && !badSize;
              readsInFlight == old(readsInFlight) - (if good && !throws then 0 else 1) &&
              state == if good && !(throws && logError) then Open
                       else if old(state) == Closed then Closed else RequestClose
    {
      readsInFlight := readsInFlight - 1;
      if error != Success || badSize {
        HandleReadError(error);
      }
      if state != Open || readError {
        CloseConnection();
        return;
      }
      pendingRead := pendingRead - 1;
      StartRead(throws, logError);
    }

    /** parsePacket: the first packet makes the protocol, all go to it. Handling one may close the connection
        (`closes`). There always is a protocol to handle it. */
    method ParsePacket(error: Error, makes: bool, closes: bool, throws: bool, logError: bool)
      requires Valid() && readsInFlight > 0
      modifies this`state, this`closeTasks, this`readError, this`readsInFlight, this`pendingRead,
        this`receivedFirst, this`hasProtocol
      ensures Valid() && Onward() && readError == (old(readError) || error != Success)
      ensures var taken := old(state) == Open && error == Success;
              var handled := taken && (old(hasProtocol) || makes);
              receivedFirst == (old(receivedFirst) || taken) &&
              hasProtocol == (old(hasProtocol) || handled) &&
              pendingRead == old(pendingRead) - (if taken && !handled then 1 else 0) &&
              readsInFlight == old(readsInFlight) - (if handled && !throws then 0 else 1) &&
              state == if handled && !closes && !(throws && logError) then Open
                       else if old(state) == Closed then Closed else RequestClose
    {
      readsInFlight := readsInFlight - 1;
      if error != Success {
        HandleReadError(error);
      }
      if state != Open || readError {
        CloseConnection();
        return;
      }
      pendingRead := pendingRead - 1;
      if !receivedFirst {
        receivedFirst := true;
        if !hasProtocol {
          if !makes {
            CloseConnection();
            return;
          }
          hasProtocol := true;
        }
      }
      assert hasProtocol;
      if closes {
        CloseConnection();
      }
      StartRead(throws, logError);
    }

    // ----- Runs -----

    /** Any handler at any time, as far as something is queued for it. */
    method Step(e: Event)
      requires Valid()
      modifies this
      ensures Valid() && Onward() && Turns(old(state), e, state)
      ensures refCount == References(e, old(refCount))
      ensures e.Close? ==> state == if old(state) == Closed then Closed else RequestClose
      ensures e.CloseTask? && old(closeTasks) > 0 ==>
                state == (if old(pendingWrite) == 0 || old(writeError) then Closed else Closing) && !hasProtocol
      ensures e.Release? && old(releaseRetries) > 0 ==> stopOperations == if refCount > 0 then 0 else 1
      ensures e.Stop? && old(stopOperations) > 0 ==> connectionReleases == 1
      ensures e.Write? && old(state) == Open ==> pendingWrite == 1
      ensures e.Written? && old(writesInFlight) > 0 ==>
                if old(state) == Open && e.error == Success then state == Open && pendingWrite == 0
                else state != Open && !socketOpen
      ensures e.WriteTimeout? && old(pendingWrite > 0 || writeError) ==> state != Open && !socketOpen
      ensures e.ReadTimeout? && old(pendingRead > 0 || readError) ==> state != Open && !socketOpen
      ensures e.HeaderRead? && old(readsInFlight) > 0 && (e.error != Success || e.badSize) ==>
                state != Open && readError
      ensures e.PacketRead? && old(readsInFlight) > 0 && (e.error != Success || e.closes) ==> state != Open
      ensures e.Accept? && old(state == Open && pendingRead == 0 && !receivedFirst && !hasProtocol) ==>
                pendingRead == 1 && hasProtocol == e.speaksFirst
    {
      hide Valid;
      TaskQueued();
      match e {
        case Close => CloseConnection();
        case CloseTask => if closeTasks > 0 { CloseConnectionTask(); }
        case Release => if releaseRetries > 0 { RetryRelease(); }
        case Stop => if stopOperations > 0 { OnStopOperation(); }
        case Write(_) => StepWriting(e);
        case Written(_) => StepWriting(e);
        case WriteTimeout => StepWriting(e);
        case _ => StepReading(e);
      }
    }

    lemma TaskQueued()
      requires Valid()
      ensures closeTasks > 0 <==> state == RequestClose
    {
    }

    method StepWriting(e: Event)
      requires Valid() && (e.Write? || e.Written? || e.WriteTimeout?)
      modifies this
      ensures Valid() && Onward() && Turns(old(state), e, state) && refCount == old(refCount)
      ensures e.Write? && old(state) == Open ==> pendingWrite == 1
      ensures e.Written? && old(writesInFlight) > 0 ==>
                if old(state) == Open && e.error == Success then state == Open && pendingWrite == 0
                else state != Open && !socketOpen
      ensures e.WriteTimeout? && old(pendingWrite > 0 || writeError) ==> state != Open && !socketOpen
    {
      match e {
        case Write(throws) => var ok, written := Send(throws);
        case Written(error) => if writesInFlight > 0 { OnWriteOperation(error); }
        case WriteTimeout => OnWriteTimeout();
      }
    }

    method StepReading(e: Event)
      requires Valid()
      requires e.Accept? || e.ReadTimeout? || e.HeaderRead? || e.PacketRead? || e.Refer? || e.Unrefer?
      modifies this
      ensures Valid() && Onward() && Turns(old(state), e, state) && refCount == References(e, old(refCount))
      ensures e.Accept? && old(state == Open && pendingRead == 0 && !receivedFirst && !hasProtocol) ==>
                pendingRead == 1 && hasProtocol == e.speaksFirst
      ensures e.ReadTimeout? && old(pendingRead > 0 || readError) ==> state != Open && !socketOpen
      ensures e.HeaderRead? && old(readsInFlight) > 0 && (e.error != Success || e.badSize) ==>
                state != Open && readError
      ensures e.PacketRead? && old(readsInFlight) > 0 && (e.error != Success || e.closes) ==> state != Open
    {
      match e {
        case Accept(speaksFirst, throws, logError) =>
          if state == Open && pendingRead == 0 && !receivedFirst && !hasProtocol {
            AcceptConnection(speaksFirst, throws, logError);
          }
        case ReadTimeout => OnReadTimeout();
        case HeaderRead(error, badSize, throws, logError) =>
          if readsInFlight > 0 { ParseHeader(error, badSize, throws, logError); }
        case PacketRead(error, makes, closes, throws, logError) =>
          if readsInFlight > 0 { ParsePacket(error, makes, closes, throws, logError); }
        case Refer => refCount := refCount + 1;
        case Unrefer => if refCount > 0 { refCount := refCount - 1; }
      }
    }

    /** Over any run the invariant holds; so at most one write is ever pending, protocol and connection are
        each released at most once, and closed is final. The trace tells the states the events make. */
    method Run(events: seq<Event>) returns (ghost states: seq<State>)
      requires Valid()
      modifies this
      ensures Valid() && Onward()
      ensures protocolReleases <= 1 && connectionReleases <= 1 && 0 <= pendingWrite <= 1
      ensures old(state) == Closed ==> state == Closed && protocolReleases == old(protocolReleases)
      ensures Trace(states, events) && states[0] == old(state) && states[|events|] == state
      decreases |events|
    {
      hide Turns;
      states := [state];
      if events != [] {
        ghost var before := state;
        Step(events[0]);
        states := Run(events[1..]);
        TraceBegun(before, events[0], states, events[1..]);
        assert events == [events[0]] + events[1..];
        states := [before] + states;
      }
    }

    /** Closing comes to an end: once requested, the task, the end (or the timeout) of a write still pending
        and the task again close the connection from any state a run can lead to. */
    method Shutdown(completes: bool, error: Error)
      requires Valid()
      modifies this
      ensures Valid() && Onward() && state == Closed && !hasProtocol && !socketOpen
    {
      CloseConnection();
      if closeTasks > 0 {
        CloseConnectionTask();
      }
      if state == Closing {
        if completes && writesInFlight > 0 {
          OnWriteOperation(error);
        } else {
          OnWriteTimeout();
        }
        CloseConnectionTask();
      }
    }
  }
}
