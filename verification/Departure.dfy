/** What a departed client leaves behind. */
module Departure {
  import opened StoreModel
  import opened StoreInvariant
  import opened HandlerLaws
  import opened WaiterLaws

  lemma {:induction false} CountAfterRemoval(fds: seq<Fd>, fd: Fd, x: Fd)
    ensures Count(RemoveFirst(fds, fd), x) == Count(fds, x) - if x == fd && fd in fds then 1 else 0
  {
    if fds != [] {
      var head, rest := fds[0], fds[1..];
      assert fds == [head] + rest;
      if head != fd {
        CountAfterRemoval(rest, fd, x);
        assert ([head] + RemoveFirst(rest, fd))[1..] == RemoveFirst(rest, fd);
      }
    }
  }

  /**
    An exit drops the client's locks and its places in the queues, but only one of its open descriptors: it still
    counts as having a file open exactly when it had opened it more than once. The permission for a first write stays.
  */
  lemma StillOpenIff(s: Store, fd: Fd, i: nat)
    requires Inv(s) && fd > 0 && i < |s.files|
    ensures var f, g := s.files[i], Exit(s, fd).store.files[i];
      && g.lockedBy != fd && fd !in g.pending
      && (fd in g.openFds <==> Count(f.openFds, fd) >= 2)
      && g.firstWriter == f.firstWriter
  {
    ExitKeeps(s, fd);
    CountAfterRemoval(s.files[i].openFds, fd, fd);
    CountIsPositive(s.files[i].openFds, fd);
    CountIsPositive(RemoveFirst(s.files[i].openFds, fd), fd);
  }

  lemma LastStep(s: Store, calls: seq<Call>, c: Call)
    ensures After(s, calls + [c]) == Step(After(s, calls), c).store
  {
    assert (calls + [c])[..|calls|] == calls;
  }

  lemma OpensAgain(s: Store, f: File, fd: Fd)
    requires s.files == [f] && f.path != [] && fd > 0
    ensures Open(s, f.path, false, false, fd, 0).store.files == [f.(openFds := f.openFds + [fd])]
  {
    assert IndexOf(s.files, f.path) == 0;
  }

  function Twice(): File {
    NewFile([97], false, 4, 0).(openFds := [4, 4])
  }

  lemma TwiceOpened()
    ensures var create, open := Call(ReqOpen([97], true, false), 4, 0), Call(ReqOpen([97], false, false), 4, 0);
      After(InitialStore(1, 10, Fifo), [create, open]).files == [Twice()]
  {
    var s, f := InitialStore(1, 10, Fifo), NewFile([97], false, 4, 0);
    var create, open := Call(ReqOpen([97], true, false), 4, 0), Call(ReqOpen([97], false, false), 4, 0);
    LastStep(s, [], create);
    LastStep(s, [create], open);
    assert [] + [create] == [create] && [create] + [open] == [create, open];
    assert After(s, [create]).files == [f];
    assert f.openFds + [4] == [4, 4];
    OpensAgain(After(s, [create]), f, 4);
  }

  lemma LeavesOne()
    ensures Leave(Twice(), 4).openFds == [4]
  {
    assert [4, 4][1..] == [4];
  }

  /** A run after which a client that has left still counts as having a file open: it had opened it twice. */
  lemma OpenedTwiceStaysOpen()
    ensures var create, open := Call(ReqOpen([97], true, false), 4, 0), Call(ReqOpen([97], false, false), 4, 0);
      var calls := [create, open, Call(ReqExit, 4, 0)];
      exists f :: After(InitialStore(1, 10, Fifo), calls).files == [f] && f.openFds == [4]
  {
    hide Open, Leave, Twice;
    var create, open, exit := Call(ReqOpen([97], true, false), 4, 0), Call(ReqOpen([97], false, false), 4, 0),
      Call(ReqExit, 4, 0);
    TwiceOpened();
    LastStep(InitialStore(1, 10, Fifo), [create, open], exit);
    assert [create, open] + [exit] == [create, open, exit];
    LeavesOne();
    assert After(InitialStore(1, 10, Fifo), [create, open, exit]).files == [Leave(Twice(), 4)];
  }
}
