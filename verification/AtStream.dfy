/** at::ATStream as an object: the fields the source keeps and the methods that change them. */
module AtStream {
  import opened AtText
  import R = AtResponse

  class ATStream {
    const rxCount: nat
    var result: R.Result
    var atAtTheBegin: bool
    var beginChecked: bool
    var lastPos: nat
    var lineCounter: nat
    var atBuffer: string
    var isATReady: bool
    var errcode: nat
    ghost var initialCode: R.Code

    ghost function View(): R.State
      reads this
    {
      R.State(rxCount, atBuffer, beginChecked, atAtTheBegin, lastPos, lineCounter, errcode, isATReady, result)
    }

    // Nothing in the object depends on how its bytes arrived.
    ghost predicate Valid()
      reads this
    {
      View() == R.Of(rxCount, initialCode, atBuffer)
    }

    constructor (rxCount: nat)
      ensures Valid() && View() == R.Empty(rxCount, R.UNDEFINED)
    {
      this.rxCount := rxCount;
      result := R.Result(R.UNDEFINED, R.Equipment(R.NO_INFORMATION), []);
      atAtTheBegin, beginChecked, isATReady := false, false, false;
      lastPos, lineCounter, errcode := 0, 0, 0;
      atBuffer := [];
      initialCode := R.UNDEFINED;
      new;
      R.EmptyIsOf(rxCount, R.UNDEFINED);
    }

    method Judge(line: string) returns (found: bool)
      modifies this`result, this`errcode
      ensures found == (R.ParseState(line).code != R.NONE)
      ensures View() == if found then R.WithCode(old(View()), R.ParseState(line)) else old(View())
    {
      var p := R.ParseState(line);
      if p.errcode.Some? {
        errcode := p.errcode.value;
      }
      R.ParseStateErrcode(line);
      found := p.code != R.NONE;
      if found {
        result := result.(code := p.code);
      }
    }

    method CheckATBegin() returns (found: bool)
      modifies this`result, this`errcode, this`beginChecked
      ensures (View(), found) == R.CheckATBegin(old(View()))
    {
      found := false;
      var pos := Find(atBuffer, 2);
      if pos.Some? {
        beginChecked := true;
        found := Judge(atBuffer[2..pos.value]);
      }
    }

    method CheckATEnd() returns (found: bool)
      modifies this`result, this`errcode
      ensures (View(), found) == R.CheckATEnd(old(View()))
    {
      hide R.ParseState;
      hide RFind;
      found := false;
      var pos := RFind(atBuffer, |atBuffer|);
      if pos.Some? {
        var pos2 := RFind(atBuffer, if pos.value < 2 then |atBuffer| else pos.value - 2);
        if pos2.Some? {
          var line := if pos2.value + 2 <= pos.value then atBuffer[pos2.value + 2..pos.value]
                      else atBuffer[pos2.value + 2..];
          found := Judge(line);
        }
      }
    }

    method CountLines()
      modifies this`lastPos, this`lineCounter
      ensures (lastPos, lineCounter) ==
              if rxCount != 0 then R.CountLines(atBuffer, old(lastPos), old(lineCounter))
              else (old(lastPos), old(lineCounter))
    {
      if rxCount != 0 {
        var pos := Find(atBuffer, lastPos);
        while pos.Some?
          invariant pos == Find(atBuffer, lastPos)
          invariant R.CountLines(atBuffer, lastPos, lineCounter)
                 == R.CountLines(atBuffer, old(lastPos), old(lineCounter))
          decreases |atBuffer| - lastPos
        {
          if lastPos != pos.value {
            lineCounter := lineCounter + 1;
          }
          lastPos := pos.value + 2;
          pos := Find(atBuffer, lastPos);
        }
      }
    }

    method Parse() returns (done: bool)
      modifies this
      ensures atBuffer == old(atBuffer) && isATReady == old(isATReady) && initialCode == old(initialCode)
      ensures (View(), done) == R.Parse(old(View()))
    {
      hide R.CheckATBegin;
      hide R.CheckATEnd;
      hide R.CountLines;
      if !beginChecked && |atBuffer| > R.MIN_AT_CMD_RET && atBuffer[0] == '\r' && atBuffer[1] == '\n' {
        var found := CheckATBegin();
        if found {
          atAtTheBegin := true;
          if rxCount == 0 {
            return true;
          }
        }
      }
      CountLines();
      if atAtTheBegin {
        return rxCount <= lineCounter;
      } else {
        done := CheckATEnd();
      }
    }

    method CheckError()
      modifies this`result
      ensures result == R.CheckError(old(result), errcode)
    {
      if result.code == R.CME_ERROR {
        result := result.(code := R.ERROR);
        result := result.(errorCode := R.Equipment(if R.IsEquipmentError(errcode) then errcode else R.UNKNOWN));
      }
      if result.code == R.CMS_ERROR {
        result := result.(code := R.ERROR);
        result := result.(errorCode := R.Network(if R.IsNetworkError(errcode) then errcode else R.UNKNOWN));
      }
    }

    // A ready stream refuses more bytes; otherwise they are added and everything follows from all bytes so far.
    method Write(buffer: string) returns (more: bool)
      requires Valid()
      modifies this
      ensures Valid() && initialCode == old(initialCode)
      ensures atBuffer == if old(isATReady) then old(atBuffer) else old(atBuffer) + buffer
      ensures (View(), more) == R.WriteStep(old(View()), buffer)
      ensures more == !isATReady
    {
      hide R.Of;
      hide R.Parse;
      hide SplitFrom;
      if isATReady {
        return false;
      }
      R.WriteIsFunctionOfBytes(rxCount, initialCode, atBuffer, buffer);
      atBuffer := atBuffer + buffer;
      var done := Parse();
      more := !done;
      if done {
        isATReady := true;
        result := result.(response := result.response + Split(atBuffer));
        CheckError();
        if rxCount != 0 && |result.response| > rxCount {
          result := result.(code := R.TOKENS);
        }
      }
    }

    method Reset()
      modifies this
      ensures Valid() && View() == R.Empty(rxCount, R.NONE)
    {
      result := R.Result(R.NONE, R.Equipment(R.NO_INFORMATION), []);
      atAtTheBegin, beginChecked, isATReady := false, false, false;
      lastPos, lineCounter, errcode := 0, 0, 0;
      atBuffer := [];
      initialCode := R.NONE;
      R.EmptyIsOf(rxCount, R.NONE);
    }
  }
}
