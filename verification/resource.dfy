/** The permit counter of internal/pkg/job/resource.go: the value the protocol model uses, and the
    mutex-guarded object whose methods act on it. */
module Resource {
  datatype Permits = Permits(max: int, curr: int) {
    predicate Available() {
      curr < max
    }

    function Take(): Permits {
      this.(curr := curr + 1)
    }

    function Give(): Permits {
      this.(curr := curr - 1)
    }
  }

  class MaxCntResourceSemaphore {
    var maxCnt: int
    var currCnt: int

    constructor (maxCnt: int)
      ensures Value() == Permits(maxCnt, 0)
    {
      this.maxCnt := maxCnt;
      this.currCnt := 0;
    }

    ghost function Value(): Permits
      reads this
    {
      Permits(maxCnt, currCnt)
    }

    /** False stands for ErrAcquireExceedLimit. */
    method Acquire() returns (ok: bool)
      modifies this
      ensures ok == old(Value().Available())
      ensures Value() == if ok then old(Value()).Take() else old(Value())
    {
      if currCnt >= maxCnt {
        return false;
      }
      currCnt := currCnt + 1;
      return true;
    }

    method Release()
      modifies this
      ensures Value() == old(Value()).Give()
    {
      currCnt := currCnt - 1;
    }

    method UpdateMaxCnt(maxCnt: int)
      modifies this
      ensures Value() == Permits(maxCnt, old(currCnt))
    {
      this.maxCnt := maxCnt;
    }
  }
}
