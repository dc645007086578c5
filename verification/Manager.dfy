/** The manager of src/server.c in memory: one scan of the descriptors that `select` has found ready. */
module Manager {
  import opened StoreModel
  import Server

  predicate Ascending(fds: seq<Fd>) {
    forall i, j :: 0 <= i < j < |fds| ==> fds[i] < fds[j]
  }

  /** The descriptors of clients among those that are ready. */
  function Clients(ready: set<Fd>, listen: Fd, pipeIn: Fd): set<Fd> {
    ready - {listen, pipeIn}
  }

  /**
    `select` has found the descriptors of `rset` ready in state `s`: the pipe, on which `fromPipe` comes next, the
    socket, on which `accepted` asks for a connection, and clients with a request.
  */
  ghost predicate Ready(s: Server.Server, rset: set<Fd>, fromPipe: Fd, accepted: Fd) {
    && rset <= s.readset + {s.listen, s.pipeIn}
    && (s.pipeIn in rset ==> s.pipe != [] && s.pipe[0] == fromPipe)
    && s.listen < accepted < Server.FD_SETSIZE && accepted !in s.live
  }

  /** One round of the loop: the saved read set before it, what is ready, and what the pipe and the socket bring. */
  datatype Round = Round(
    listen: Fd,
    pipeIn: Fd,
    was: set<Fd>,
    rset: set<Fd>,
    fromPipe: Fd,
    accepted: Fd,
    softExit: bool)
  {
    ghost predicate Valid() {
      && pipeIn < listen < accepted && accepted !in was && rset <= was + {listen, pipeIn}
      && (forall fd :: fd in was ==> listen < fd)
      && (pipeIn in rset ==> fromPipe == 0 || (listen < fromPipe && fromPipe !in was))
    }

    /** A descriptor that the loop adds to the read set before it comes to `i`. */
    predicate Joins(fd: Fd, i: int) {
      || (pipeIn in rset && pipeIn < i && fd == fromPipe && fd != 0)
      || (listen in rset && listen < i && !softExit && fd == accepted)
    }

    /** What has been done when the loop comes to `i`: the ready clients below it are tasks, in order. */
    ghost predicate Done(readset: set<Fd>, tasks: seq<Fd>, i: int) {
      && Ascending(tasks)
      && (forall fd :: fd in tasks <==> fd in Clients(rset, listen, pipeIn) && fd < i)
      && (forall fd :: fd in readset <==> (fd in was && fd !in tasks) || Joins(fd, i))
    }

    function ReadsetAfter(readset: set<Fd>, i: int): set<Fd> {
      if i !in rset then readset
      else if i == pipeIn then if fromPipe == 0 then readset else readset + {fromPipe}
      else if i == listen then if softExit then readset else readset + {accepted}
      else readset - {i}
    }

    lemma OneMore(readset: set<Fd>, tasks: seq<Fd>, i: int)
      requires Valid() && Done(readset, tasks, i)
      ensures i in Clients(rset, listen, pipeIn) ==> i in readset
      ensures Done(ReadsetAfter(readset, i), if i in Clients(rset, listen, pipeIn) then tasks + [i] else tasks, i + 1)
    {
      assert forall fd :: fd in tasks + [i] <==> fd in tasks || fd == i;
      assert forall k :: 0 <= k < |tasks| ==> tasks[k] in tasks;
    }

    /** What has been done when the loop ends, after the last descriptor or with the last client of a soft exit. */
    lemma AtTheEnd(readset: set<Fd>, tasks: seq<Fd>, i: int)
      requires Valid() && Done(readset, tasks, i) && pipeIn < i
      ensures Ascending(tasks) && forall k :: 0 <= k < |tasks| ==> tasks[k] in Clients(rset, listen, pipeIn)
      ensures (forall fd :: fd in readset ==> fd < i) ==>
        forall fd :: fd in Clients(rset, listen, pipeIn) ==> fd in tasks
      ensures forall fd :: fd in readset <==>
        (fd in was && fd !in tasks)
        || (pipeIn in rset && fd == fromPipe && fd != 0)
        || (listen in rset && listen < i && !softExit && fd == accepted)
    {
      assert forall k :: 0 <= k < |tasks| ==> tasks[k] in tasks;
    }
  }

  class Manager {
    const listen: Fd
    const pipeIn: Fd
    /** The clients in the saved read set; the listening socket and the pipe are always in it. */
    var readset: set<Fd>
    var fdNum: Fd
    var clientCount: int
    var softExit: bool

    /** `fd_num` bounds every descriptor that may be ready. */
    ghost predicate Valid()
      reads this
    {
      0 < pipeIn < listen <= fdNum && forall fd :: fd in readset ==> listen < fd <= fdNum
    }

    /** These are the manager's variables in the state `s` of the whole server. */
    ghost predicate Shows(s: Server.Server)
      reads this
    {
      && s.listen == listen && s.pipeIn == pipeIn
      && s.readset == readset && s.fdNum == fdNum && s.clientCount == clientCount && s.softExit == softExit
    }

    constructor (listen: Fd, pipeIn: Fd, ghost workers: nat, ghost store: Store)
      requires 0 < pipeIn < listen
      ensures Valid() && this.listen == listen && this.pipeIn == pipeIn
      ensures readset == {} && clientCount == 0 && !softExit
      ensures Shows(Server.Initial(listen, pipeIn, workers, store))
    {
      this.listen, this.pipeIn := listen, pipeIn;
      readset, fdNum, clientCount, softExit := {}, listen, 0, false;
    }

    /** A worker is done with a request, or a client has left; returns whether that ends the server. */
    method HandlePipe(fd: Fd, ghost s: Server.Server) returns (exit: bool)
      requires Valid() && (fd == 0 || listen < fd)
      requires Shows(s) && s.pipe != [] && s.pipe[0] == fd && !s.stopped
      modifies this`readset, this`fdNum, this`clientCount
      ensures Valid() && fdNum >= old(fdNum) && softExit == old(softExit)
      ensures readset == if fd == 0 then old(readset) else old(readset) + {fd}
      ensures clientCount == old(clientCount) - if fd == 0 then 1 else 0
      ensures exit <==> fd == 0 && softExit && clientCount == 0
      ensures Shows(Server.Collected(s)) && exit == Server.Collected(s).stopped
    {
      exit := false;
      if fd != 0 {
        readset := readset + {fd};
        fdNum := if fd > fdNum then fd else fdNum;
      } else {
        clientCount := clientCount - 1;
        exit := clientCount == 0 && softExit;
      }
    }

    /** A new connection, refused during a soft exit. */
    method HandleConnection(fd: Fd, ghost s: Server.Server)
      requires Valid() && listen < fd && Shows(s)
      modifies this`readset, this`fdNum, this`clientCount
      ensures Valid() && fdNum >= old(fdNum) && softExit == old(softExit)
      ensures readset == if softExit then old(readset) else old(readset) + {fd}
      ensures clientCount == old(clientCount) + if softExit then 0 else 1
      ensures Shows(Server.Accepted(s, fd))
    {
      if !softExit {
        readset := readset + {fd};
        clientCount := clientCount + 1;
        fdNum := if fd > fdNum then fd else fdNum;
      }
    }

    /** A request from a client: its descriptor leaves the read set. */
    method HandleRequest(fd: Fd, ghost s: Server.Server)
      requires Valid() && fd in readset && Shows(s)
      modifies this`readset, this`fdNum
      ensures Valid() && readset == old(readset) - {fd}
      ensures fdNum == if fd == old(fdNum) then old(fdNum) - 1 else old(fdNum)
      ensures Shows(Server.Dispatched(s, fd))
    {
      readset := readset - {fd};
      if fd == fdNum {
        fdNum := fdNum - 1;
      }
    }

    /** A run of the server that has led to what the manager's variables show. */
    ghost predicate Follows(s: Server.Server, steps: seq<Server.Action>, now: Server.Server)
      reads this
    {
      Server.IsRun(s, steps) && Server.Reached(s, steps) == now && Server.Inv(now) && Shows(now)
    }

    /**
      The loop over all descriptors up to `fd_num`, which moves while the loop runs. Unless the server ends, every
      ready client is taken exactly once, in ascending order, and put on the task queue. What the loop does is a run
      of the steps of the server.
    */
    method Scan(rset: set<Fd>, fromPipe: Fd, accepted: Fd, ghost s: Server.Server)
      returns (tasks: seq<Fd>, exit: bool, ghost steps: seq<Server.Action>)
      requires Valid() && Shows(s) && Server.Inv(s) && !s.stopped && Ready(s, rset, fromPipe, accepted)
      modifies this`readset, this`fdNum, this`clientCount
      ensures Valid() && Ascending(tasks) && forall k :: 0 <= k < |tasks| ==> tasks[k] in Clients(rset, listen, pipeIn)
      ensures !exit ==> forall fd :: fd in Clients(rset, listen, pipeIn) ==> fd in tasks
      ensures forall fd :: fd in readset <==>
        (fd in old(readset) && fd !in tasks)
        || (pipeIn in rset && fd == fromPipe && fd != 0) || (!exit && listen in rset && !softExit && fd == accepted)
      ensures exit ==> softExit && clientCount == 0
      ensures Server.IsRun(s, steps) && Shows(Server.Reached(s, steps))
      ensures Server.Reached(s, steps).queue == s.queue + tasks && Server.Reached(s, steps).stopped == exit
    {
      hide Server.Inv, Server.IsRun, Server.Reached, Round.Done;
      ghost var round := Round(listen, pipeIn, readset, rset, fromPipe, accepted, softExit);
      RoundIsValid(s, round);
      NoStepYet(s);
      tasks, exit, steps := [], false, [];
      var i := 0;
      ghost var now := s;
      while i < fdNum + 1
        invariant 0 <= i && Valid() && softExit == round.softExit
        invariant round.Done(readset, tasks, i)
        invariant Follows(s, steps, now) && !now.stopped && now.queue == s.queue + tasks
        invariant Pending(s, now, i, accepted)
        decreases (if i <= pipeIn then 2 else if i <= listen then 1 else 0), fdNum + 1 - i
      {
        round.OneMore(readset, tasks, i);
        if i in rset {
          if i == pipeIn {
            CanCollect(s, steps, now);
            exit := HandlePipe(fromPipe, now);
            now, steps := Server.Collected(now), steps + [Server.Collect];
            if exit {
              round.AtTheEnd(readset, tasks, i + 1);
              return;
            }
          } else if i == listen {
            CanAccept(s, steps, now, accepted);
            HandleConnection(accepted, now);
            now, steps := Server.Accepted(now, accepted), steps + [Server.Accept(accepted)];
          } else {
            CanDispatch(s, steps, now, i);
            HandleRequest(i, now);
            now, steps := Server.Dispatched(now, i), steps + [Server.Dispatch(i)];
            tasks := tasks + [i];
          }
        }
        i := i + 1;
      }
      round.AtTheEnd(readset, tasks, i);
    }

    /** The pipe and the socket are as they were until the loop comes to them. */
    ghost predicate Pending(s: Server.Server, now: Server.Server, i: nat, accepted: Fd) {
      && (i <= pipeIn ==> now.pipe == s.pipe)
      && (i <= listen ==> now.live == s.live)
    }
  }

  /** The descriptors that join the read set are not in it yet. */
  lemma RoundIsValid(s: Server.Server, m: Round)
    requires Server.Inv(s) && Ready(s, m.rset, m.fromPipe, m.accepted)
    requires m.was == s.readset && m.listen == s.listen && m.pipeIn == s.pipeIn
    ensures m.Valid() && m.Done(m.was, [], 0)
  {
    forall fd | fd in s.readset ensures fd in s.live && s.listen < fd {
      assert Server.PlaceOk(s, fd);
    }
    if m.pipeIn in m.rset && m.fromPipe != 0 {
      Server.ReportedIsLive(s);
    }
  }

  lemma NoStepYet(s: Server.Server)
    ensures Server.IsRun(s, []) && Server.Reached(s, []) == s
  {
  }

  lemma CanCollect(s: Server.Server, steps: seq<Server.Action>, now: Server.Server)
    requires Server.IsRun(s, steps) && Server.Reached(s, steps) == now && Server.Inv(now)
    requires !now.stopped && now.pipe != []
    ensures Server.IsRun(s, steps + [Server.Collect]) && Server.Inv(Server.Collected(now))
    ensures Server.Reached(s, steps + [Server.Collect]) == Server.Collected(now)
    ensures now.pipe[0] == 0 || (now.listen < now.pipe[0] && now.pipe[0] in now.live && now.pipe[0] !in now.readset)
  {
    hide Server.IsRun, Server.Reached;
    Server.CollectKeeps(now);
    Server.OneMoreStep(s, steps, Server.Collect);
    if now.pipe[0] != 0 {
      Server.ReportedIsLive(now);
    }
  }

  lemma CanAccept(s: Server.Server, steps: seq<Server.Action>, now: Server.Server, fd: Fd)
    requires Server.IsRun(s, steps) && Server.Reached(s, steps) == now && Server.Inv(now) && !now.stopped
    requires now.listen < fd < Server.FD_SETSIZE && fd !in now.live
    ensures Server.IsRun(s, steps + [Server.Accept(fd)]) && Server.Inv(Server.Accepted(now, fd))
    ensures Server.Reached(s, steps + [Server.Accept(fd)]) == Server.Accepted(now, fd)
  {
    hide Server.IsRun, Server.Reached, Server.Inv;
    Server.AcceptKeeps(now, fd);
    Server.OneMoreStep(s, steps, Server.Accept(fd));
  }

  lemma CanDispatch(s: Server.Server, steps: seq<Server.Action>, now: Server.Server, fd: Fd)
    requires Server.IsRun(s, steps) && Server.Reached(s, steps) == now && Server.Inv(now) && !now.stopped
    requires fd in now.readset
    ensures Server.IsRun(s, steps + [Server.Dispatch(fd)]) && Server.Inv(Server.Dispatched(now, fd))
    ensures Server.Reached(s, steps + [Server.Dispatch(fd)]) == Server.Dispatched(now, fd)
  {
    hide Server.IsRun, Server.Reached, Server.Inv;
    Server.QueueHasRoom(now);
    Server.DispatchKeeps(now, fd);
    Server.OneMoreStep(s, steps, Server.Dispatch(fd));
  }
}
