/** The admission controller (threading_ctrl.cpp). */
module ThreadingCtrl {

  const TWO_TO_32: int := 0x1_0000_0000

  /** An `unsigned int`. */
  type UInt = n: int | 0 <= n < TWO_TO_32

  function Wrap(n: int): UInt { n % TWO_TO_32 }

  datatype Ctrl = Ctrl(queue: seq<nat>, msgAmount: UInt, maxThread: UInt, starts: UInt, fails: UInt, isFile: bool)

  /** In file mode: the two tests are joined by `|`, the subtraction is unsigned. */
  predicate FilePermit(starts: int, fails: int, maxThread: int) {
    starts < maxThread || (starts >= maxThread && Wrap(starts - fails) < maxThread)
  }

  /** In message mode the count is added to a `size_t`, which does not wrap here. */
  predicate MessagePermit(msgCount: nat, queued: nat, msgAmount: nat, maxThread: nat) {
    msgCount + queued < msgAmount && queued < maxThread
  }

  predicate Permit(c: Ctrl, msgCount: UInt) {
    if !c.isFile then MessagePermit(msgCount, |c.queue|, c.msgAmount, c.maxThread)
    else FilePermit(c.starts, c.fails, c.maxThread)
  }

  /** The file-mode test is the comparison it stands for exactly when failures
      do not exceed starts, or the wrong branch happens to agree. */
  lemma FilePermitIsTheDifference(starts: UInt, fails: UInt, maxThread: UInt)
    ensures (FilePermit(starts, fails, maxThread) <==> starts - fails < maxThread)
      <==> (fails <= starts || starts < maxThread || TWO_TO_32 - (fails - starts) < maxThread)
  {
    if fails <= starts {
      assert Wrap(starts - fails) == starts - fails;
    } else {
      assert Wrap(starts - fails) == starts - fails + TWO_TO_32;
    }
  }

  class ThreadCtrl {
    var threadQueue: seq<nat>
    var msgAmount: UInt
    var maxThread: UInt
    var fileThreadStartCount: UInt
    var fileThreadFailCount: UInt
    var isFile: bool

    function View(): Ctrl
      reads this
    {
      Ctrl(threadQueue, msgAmount, maxThread, fileThreadStartCount, fileThreadFailCount, isFile)
    }

    /** Limits and counters; the queue is left as it is. */
    method Init(fileFlag: bool)
      modifies this
      ensures View() == Ctrl(old(threadQueue), 100, if fileFlag then 1 else 10, 0, 0, fileFlag)
    {
      msgAmount := 100;
      fileThreadStartCount := 0;
      fileThreadFailCount := 0;
      isFile := fileFlag;
      if isFile {
        maxThread := 1;
      } else {
        maxThread := 10;
      }
    }

    method ThreadCreatingInfo(thId: nat, created: bool)
      modifies this`threadQueue, this`fileThreadStartCount
      ensures threadQueue == if created then old(threadQueue) + [thId] else old(threadQueue)
      ensures fileThreadStartCount ==
        if created && isFile then Wrap(old(fileThreadStartCount) + 1) else old(fileThreadStartCount)
    {
      if created {
        if isFile {
          threadQueue := threadQueue + [thId];
          fileThreadStartCount := Wrap(fileThreadStartCount + 1);
        } else {
          threadQueue := threadQueue + [thId];
        }
      }
    }

    /** `pop` on an empty queue is undefined; that no caller does it is proved in Pool. */
    method ThreadExitingInfo()
      requires threadQueue != []
      modifies this`threadQueue
      ensures threadQueue == old(threadQueue)[1..]
    {
      threadQueue := threadQueue[1..];
    }

    method ThreadCreatingPermit(msgCount: UInt) returns (permit: bool)
      ensures permit <==> Permit(View(), msgCount)
    {
      if !isFile {
        permit := msgCount + |threadQueue| < msgAmount && |threadQueue| < maxThread;
      } else {
        var below := fileThreadStartCount < maxThread;
        var replaced := fileThreadStartCount >= maxThread
          && Wrap(fileThreadStartCount - fileThreadFailCount) < maxThread;
        permit := below || replaced;
      }
    }
  }
}
