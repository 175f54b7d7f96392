/** What a document holds after a whole run of calls, read off the calls themselves. */
module DeclarationRuns {
  import opened Common
  import opened Declaration

  /** The text that the `i`-th call is given, as it is when the call is made. */
  function Given(ops: seq<Op>, i: nat): string
    requires i < |ops| && (ops[i].SetVersion? || ops[i].SetEncoding?)
  {
    match ArgText(Run(ops[..i]), ops[i].arg)
    case None => ""
    case Some(text) => text
  }

  /** The status of the `i`-th call: NULL and empty texts are rejected, and a copy needs
      memory. */
  function StatusOf(ops: seq<Op>, i: nat): Status
    requires i < |ops|
  {
    if ops[i].SetStandalone? || ops[i].Clear? then Ok
    else if Given(ops, i) == "" then InvalidArg
    else if !ops[i].granted then OutOfMemory
    else Ok
  }

  lemma StatusIs(ops: seq<Op>, i: nat)
    requires i < |ops|
    ensures Step(Run(ops[..i]), ops[i]).1 == StatusOf(ops, i)
  {
  }

  predicate StoresVersion(ops: seq<Op>, i: nat)
    requires i < |ops|
  {
    ops[i].SetVersion? && StatusOf(ops, i) == Ok
  }

  predicate StoresEncoding(ops: seq<Op>, i: nat)
    requires i < |ops|
  {
    ops[i].SetEncoding? && StatusOf(ops, i) == Ok
  }

  /** Looking back, a call is what it was when the run was shorter. */
  lemma Earlier(ops: seq<Op>, i: nat)
    requires i + 1 < |ops|
    ensures var init := ops[..|ops| - 1];
            && init[i] == ops[i] && StatusOf(init, i) == StatusOf(ops, i)
            && (ops[i].SetVersion? || ops[i].SetEncoding? ==> Given(init, i) == Given(ops, i))
  {
    assert ops[..|ops| - 1][..i] == ops[..i];
  }

  /** The version is the text of the last call that set it, if no clear came later. */
  lemma {:induction false} VersionIsLast(ops: seq<Op>, i: nat)
    requires i < |ops| && StoresVersion(ops, i)
    requires forall k | i < k < |ops| :: !ops[k].Clear? && !StoresVersion(ops, k)
    ensures Run(ops).version == Some(Given(ops, i))
    decreases |ops|
  {
    var n := |ops| - 1;
    StatusIs(ops, n);
    if i < n {
      Earlier(ops, i);
      forall k | i < k < n ensures !ops[..n][k].Clear? && !StoresVersion(ops[..n], k) {
        Earlier(ops, k);
      }
      VersionIsLast(ops[..n], i);
      assert !StoresVersion(ops, n);
    }
  }

  /** It is not set if every call that set it was followed by a clear. */
  lemma {:induction false} VersionIsUnset(ops: seq<Op>)
    requires forall i | 0 <= i < |ops| && StoresVersion(ops, i) :: exists k :: i < k < |ops| && ops[k].Clear?
    ensures Run(ops).version == None
    decreases |ops|
  {
    if ops != [] && !ops[|ops| - 1].Clear? {
      var n := |ops| - 1;
      StatusIs(ops, n);
      assert !StoresVersion(ops, n);
      forall i | 0 <= i < n && StoresVersion(ops[..n], i) ensures exists k :: i < k < n && ops[..n][k].Clear? {
        Earlier(ops, i);
        assert StoresVersion(ops, i);
        var k :| i < k < |ops| && ops[k].Clear?;
        assert ops[..n][k].Clear?;
      }
      VersionIsUnset(ops[..n]);
    }
  }

  /** The same for the encoding. */
  lemma {:induction false} EncodingIsLast(ops: seq<Op>, i: nat)
    requires i < |ops| && StoresEncoding(ops, i)
    requires forall k | i < k < |ops| :: !ops[k].Clear? && !StoresEncoding(ops, k)
    ensures Run(ops).encoding == Some(Given(ops, i))
    decreases |ops|
  {
    var n := |ops| - 1;
    StatusIs(ops, n);
    if i < n {
      Earlier(ops, i);
      forall k | i < k < n ensures !ops[..n][k].Clear? && !StoresEncoding(ops[..n], k) {
        Earlier(ops, k);
      }
      EncodingIsLast(ops[..n], i);
      assert !StoresEncoding(ops, n);
    }
  }

  lemma {:induction false} EncodingIsUnset(ops: seq<Op>)
    requires forall i | 0 <= i < |ops| && StoresEncoding(ops, i) :: exists k :: i < k < |ops| && ops[k].Clear?
    ensures Run(ops).encoding == None
    decreases |ops|
  {
    if ops != [] && !ops[|ops| - 1].Clear? {
      var n := |ops| - 1;
      StatusIs(ops, n);
      assert !StoresEncoding(ops, n);
      forall i | 0 <= i < n && StoresEncoding(ops[..n], i) ensures exists k :: i < k < n && ops[..n][k].Clear? {
        Earlier(ops, i);
        assert StoresEncoding(ops, i);
        var k :| i < k < |ops| && ops[k].Clear?;
        assert ops[..n][k].Clear?;
      }
      EncodingIsUnset(ops[..n]);
    }
  }

  /** The standalone marker is what the last call that set it was given, as 0 or 1. */
  lemma {:induction false} StandaloneIsLast(ops: seq<Op>, i: nat)
    requires i < |ops| && ops[i].SetStandalone?
    requires forall k | i < k < |ops| :: !ops[k].Clear? && !ops[k].SetStandalone?
    ensures Run(ops).standalone == if ops[i].value == 0 then 0 else 1
    decreases |ops|
  {
    var n := |ops| - 1;
    if i < n {
      assert forall k | i < k < n :: ops[..n][k] == ops[k];
      StandaloneIsLast(ops[..n], i);
    }
  }

  lemma {:induction false} StandaloneIsUnset(ops: seq<Op>)
    requires forall i | 0 <= i < |ops| && ops[i].SetStandalone? :: exists k :: i < k < |ops| && ops[k].Clear?
    ensures Run(ops).standalone == -1
    decreases |ops|
  {
    if ops != [] && !ops[|ops| - 1].Clear? {
      var n := |ops| - 1;
      assert !ops[n].SetStandalone?;
      forall i | 0 <= i < n && ops[..n][i].SetStandalone? ensures exists k :: i < k < n && ops[..n][k].Clear? {
        var k :| i < k < |ops| && ops[k].Clear?;
        assert ops[..n][k].Clear?;
      }
      StandaloneIsUnset(ops[..n]);
    }
  }

  /** A document driven through a run: its memory stays sound, every call returns its status,
      and the getters show what the run has left. */
  method RunAll(ops: seq<Op>) returns (doc: Document, statuses: seq<Status>)
    ensures fresh(doc) && doc.Valid() && doc.Abstract() == Run(ops)
    ensures |statuses| == |ops| && forall i :: 0 <= i < |ops| ==> statuses[i] == StatusOf(ops, i)
  {
    doc := new Document();
    statuses := [];
    var i := 0;
    while i < |ops|
      invariant i <= |ops|
      invariant fresh(doc) && doc.Valid() && doc.Abstract() == Run(ops[..i])
      invariant |statuses| == i && forall k :: 0 <= k < i ==> statuses[k] == StatusOf(ops, k)
    {
      assert ops[..i + 1][..i] == ops[..i];
      StatusIs(ops, i);
      var status := doc.Perform(ops[i]);
      statuses := statuses + [status];
      i := i + 1;
    }
    assert ops[..i] == ops;
  }
}
