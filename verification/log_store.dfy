/** The append-only store: the log file's text, replayed at start-up into the
    index, and `set` appending one record before mirroring it into the index.
    The durable write (write, flush, fsync) is one string append here. */
module LogStore {
  import opened Wrappers
  import opened Tokens
  import opened Text
  import opened Record
  import opened KvIndex

  /** The log file's whole text and the index held in memory. */
  datatype Store = Store(log: string, index: Index)

  /** One step of replay: a line that parses adds its pair, any other line is skipped. */
  function ApplyLine(idx: Index, raw: string): (r: Index)
    ensures idx.Valid() ==> r.Valid()
    ensures |r.keys| - |idx.keys| == |r.vals| - |idx.vals| == (if Parse(raw).Some? then 1 else 0)
    ensures r.keys[..|idx.keys|] == idx.keys && r.vals[..|idx.vals|] == idx.vals
    ensures forall j :: |idx.keys| <= j < |r.keys| ==> r.keys[j] == Parse(raw).value.0
    ensures forall j :: |idx.vals| <= j < |r.vals| ==> r.vals[j] == Parse(raw).value.1
  {
    match Parse(raw)
    case Some((key, val)) => Put(idx, key, val)
    case None => idx
  }

  /** Replay the lines in file order on top of `idx`. Earlier pairs are never
      touched, at most one pair is added per line, and every added key and
      value is a token. */
  function Replay(idx: Index, lines: seq<string>): (r: Index)
    ensures idx.Valid() ==> r.Valid()
    ensures |idx.keys| <= |r.keys| <= |idx.keys| + |lines|
    ensures |r.keys| - |idx.keys| == |r.vals| - |idx.vals|
    ensures r.keys[..|idx.keys|] == idx.keys && r.vals[..|idx.vals|] == idx.vals
    ensures forall j :: |idx.keys| <= j < |r.keys| ==> ValidToken(r.keys[j])
    ensures forall j :: |idx.vals| <= j < |r.vals| ==> ValidToken(r.vals[j])
    decreases |lines|
  {
    if |lines| == 0 then idx
    else
      var before := Replay(idx, lines[..|lines| - 1]);
      var r := ApplyLine(before, lines[|lines| - 1]);
      PrefixOfPrefix(r.keys, before.keys, |idx.keys|);
      PrefixOfPrefix(r.vals, before.vals, |idx.vals|);
      r
  }

  lemma PrefixOfPrefix<T>(a: seq<T>, b: seq<T>, n: nat)
    requires n <= |b| <= |a| && a[..|b|] == b
    ensures a[..n] == b[..n]
  {
    assert a[..n] == a[..|b|][..n];
  }

  /** Replaying two stretches of log is replaying the second on the result of the first. */
  lemma {:induction false} ReplayConcat(idx: Index, a: seq<string>, b: seq<string>)
    ensures Replay(idx, a + b) == Replay(Replay(idx, a), b)
    decreases |b|
  {
    if |b| == 0 {
      assert a + b == a;
    } else {
      assert (a + b)[..|a + b| - 1] == a + b[..|b| - 1];
      ReplayConcat(idx, a, b[..|b| - 1]);
    }
  }

  lemma ReplayOne(idx: Index, line: string)
    ensures Replay(idx, [line]) == ApplyLine(idx, line)
  {
    assert [line][..0] == [];
  }

  /** The log ends at a line boundary (or is empty). */
  predicate Terminated(log: string) {
    log == [] || EndsWithNewline(log)
  }

  /** The durability invariant: the log ends at a line boundary and replaying
      it rebuilds exactly the index held in memory. */
  predicate Consistent(s: Store) {
    Terminated(s.log) && s.index == Replay(Empty, Lines(s.log))
  }

  /** Ending an unterminated last line with a newline does not change what
      replay rebuilds: that line parses the same with or without it. */
  lemma {:induction false} ReplayIgnoresTerminator(idx: Index, content: string)
    requires !Terminated(content)
    ensures Replay(idx, Lines(content + "\n")) == Replay(idx, Lines(content))
  {
    var b := LastBreak(content);
    var pre, last := content[..b], content[b..];
    assert Lines(content) == Lines(pre) + [last] by {
      assert content == pre + last;
      assert IsLine(last);
      LinesConcat(pre, last);
      LinesOfLine(last);
    }
    assert Lines(content + "\n") == Lines(pre) + [last + "\n"] by {
      assert content + "\n" == pre + (last + "\n");
      assert IsLine(last + "\n");
      LinesConcat(pre, last + "\n");
      LinesOfLine(last + "\n");
    }
    assert Parse(last + "\n") == Parse(last) by {
      RStripAppendedNewline(last);
    }
    var mid := Replay(idx, Lines(pre));
    assert Replay(idx, Lines(pre) + [last]) == ApplyLine(mid, last) by {
      ReplayConcat(idx, Lines(pre), [last]);
      ReplayOne(mid, last);
    }
    assert Replay(idx, Lines(pre) + [last + "\n"]) == ApplyLine(mid, last + "\n") by {
      ReplayConcat(idx, Lines(pre), [last + "\n"]);
      ReplayOne(mid, last + "\n");
    }
  }

  /** Start-up: replay the log as it is found (an absent file reads as empty)
      and then make sure it ends at a line boundary, so that later records
      start on a line of their own. The index is exactly what replaying the
      file as found gives, and the store starts consistent. */
  function Open(content: string): (s: Store)
    ensures Consistent(s)
    ensures |content| <= |s.log| && s.log[..|content|] == content
    ensures s.index == Replay(Empty, Lines(content))
  {
    var idx := Replay(Empty, Lines(content));
    if Terminated(content) then
      Store(content, idx)
    else
      ReplayIgnoresTerminator(Empty, content);
      Store(content + "\n", idx)
  }

  /** Start-up as the program does it: the log is left exactly as found. It
      builds the same index as Open; only the unterminated tail differs. */
  function OpenAsWritten(content: string): (s: Store)
    ensures s.log == content
    ensures s.index == Open(content).index
  {
    Store(content, Replay(Empty, Lines(content)))
  }

  /** `set`: append the record to the log, then the pair to the index. The log
      grows by exactly one record, the new value wins for its key and every
      other key keeps its answer. */
  function Set(s: Store, key: string, val: string): (r: Store)
    ensures |s.log| < |r.log| && r.log[..|s.log|] == s.log
    ensures r.log[|s.log|..] == Encode(key, val)
    ensures r.index == Put(s.index, key, val)
    ensures s.index.Valid() ==> r.index.Valid() && KvIndex.Get(r.index, key) == Some(val)
    ensures s.index.Valid() ==> forall k :: k != key ==> KvIndex.Get(r.index, k) == KvIndex.Get(s.index, k)
  {
    var r := Store(s.log + Encode(key, val), Put(s.index, key, val));
    assert r.log[..|s.log|] == s.log && r.log[|s.log|..] == Encode(key, val);
    r
  }

  /** `get` reads the index only. */
  function Get(s: Store, key: string): Option<string>
    requires s.index.Valid()
  {
    KvIndex.Get(s.index, key)
  }

  /** A `set` with tokens keeps the log and the index in step: replaying the
      longer log rebuilds the updated index. */
  lemma {:induction false} SetPreservesConsistency(s: Store, key: string, val: string)
    ensures Consistent(s) && ValidToken(key) && ValidToken(val) ==> Consistent(Set(s, key, val))
  {
    if Consistent(s) && ValidToken(key) && ValidToken(val) {
      var rec := Encode(key, val);
      LinesConcat(s.log, rec);
      LinesOfLine(rec);
      ReplayConcat(Empty, Lines(s.log), [rec]);
      ReplayOne(s.index, rec);
      RoundTrip(key, val);
      var r := Set(s, key, val);
      assert r.log == s.log + rec;
      assert r.log[|r.log| - 1] == rec[|rec| - 1];
    }
  }

  /** A run of `set` calls, in order. */
  function SetAll(s: Store, ops: seq<(string, string)>): (r: Store)
    ensures |s.log| <= |r.log| && r.log[..|s.log|] == s.log
    decreases |ops|
  {
    if |ops| == 0 then s
    else
      var next := Set(s, ops[0].0, ops[0].1);
      var r := SetAll(next, ops[1..]);
      assert r.log[..|s.log|] == r.log[..|next.log|][..|s.log|];
      r
  }

  predicate AllTokens(ops: seq<(string, string)>) {
    forall i :: 0 <= i < |ops| ==> ValidToken(ops[i].0) && ValidToken(ops[i].1)
  }

  /** From a consistent store, any run of `set` calls with tokens leaves a
      log whose replay at a restart gives back the very same store. */
  lemma {:induction false} RestartAfterSets(s: Store, ops: seq<(string, string)>)
    requires Consistent(s) && AllTokens(ops)
    ensures Consistent(SetAll(s, ops))
    ensures Open(SetAll(s, ops).log) == SetAll(s, ops)
    decreases |ops|
  {
    if |ops| > 0 {
      var next := Set(s, ops[0].0, ops[0].1);
      assert Consistent(next) by {
        SetPreservesConsistency(s, ops[0].0, ops[0].1);
      }
      assert AllTokens(ops[1..]) by {
        forall i | 0 <= i < |ops[1..]| ensures ValidToken(ops[1..][i].0) && ValidToken(ops[1..][i].1) {
          assert ops[1..][i] == ops[i + 1];
        }
      }
      RestartAfterSets(next, ops[1..]);
      assert SetAll(s, ops) == SetAll(next, ops[1..]);
    }
    ReopenConsistent(SetAll(s, ops));
  }

  /** Reopening the log of a consistent store gives back that store. */
  lemma ReopenConsistent(s: Store)
    requires Consistent(s)
    ensures Open(s.log) == s
  {
  }

  /** Recovery: open any log, apply `set` calls with tokens, restart. The
      restarted store holds the same log and the same `keys`/`vals` lists,
      so every `get` answers as before the restart. */
  lemma RecoveryAfterSets(content: string, ops: seq<(string, string)>)
    requires AllTokens(ops)
    ensures var before := SetAll(Open(content), ops);
            var after := Open(before.log);
            after == before &&
            forall k :: Get(after, k) == Get(before, k)
  {
    RestartAfterSets(Open(content), ops);
  }

  /** The program as written recovers every `set` as long as the log it
      found ended at a line boundary: then its start-up and the corrected one
      agree, before and after the `set` calls. */
  lemma RecoveryAsWritten(content: string, ops: seq<(string, string)>)
    requires Terminated(content) && AllTokens(ops)
    ensures var before := SetAll(OpenAsWritten(content), ops);
            OpenAsWritten(before.log) == before
  {
    assert OpenAsWritten(content) == Open(content);
    RestartAfterSets(Open(content), ops);
  }

  /** A record followed by a partial line that does not parse replays to
      the record's pair alone. */
  lemma ReplayRecordThenPartial(key: string, val: string, last: string)
    requires ValidToken(key) && ValidToken(val)
    requires last != [] && '\n' !in last && Parse(last).None?
    ensures Replay(Empty, Lines(Encode(key, val) + last)) == Index([key], [val])
  {
    var first := Encode(key, val);
    assert Lines(first + last) == [first] + [last] by {
      LinesConcat(first, last);
      LinesOfLine(first);
      LinesOfLine(last);
    }
    ReplayConcat(Empty, [first], [last]);
    ReplayOne(Empty, first);
    RoundTrip(key, val);
    ReplayOne(Put(Empty, key, val), last);
  }

  /** A log holding `SET a 1` and then the truncated line `SET b` replays to
      the single pair `a = 1`. */
  lemma ReplayToleratesTruncatedTail(content: string)
    requires content == "SET a 1\nSET b"
    ensures Open(content).index == Index(["a"], ["1"])
  {
    assert ValidToken("a") && ValidToken("1");
    assert content == Encode("a", "1") + "SET b";
    SkipsTruncated();
    ReplayRecordThenPartial("a", "1", "SET b");
  }

  // ---------------------------------------------------------------------
  // The program as written: a partial last line swallows the next record
  // ---------------------------------------------------------------------

  /** A partial last line followed by a record reads as one line that never
      parses: it has more than three fields, or its first field is longer than `SET`. */
  lemma {:induction false} MergedLineRejected(last: string, key: string, val: string)
    requires last != [] && '\n' !in last
    requires ValidToken(key) && ValidToken(val)
    ensures Parse(last + Encode(key, val)).None?
  {
    var body := "SET " + key + " " + val;
    var merged := last + Encode(key, val);
    assert merged == (last + body) + "\n";
    RStripAppendedNewline(last + body);
    assert (last + body)[|last + body| - 1] == val[|val| - 1];
    assert RStripNewlines(merged) == last + body;
    var A := Split(last, ' ');
    var B := Split(body, ' ');
    SplitRecord(key, val);
    assert B == ["SET", key, val];
    SplitConcat(last, body, ' ');
    var parts := Split(last + body, ' ');
    assert parts == Glue(A, B);
    if |A| == 1 {
      assert A[0] == last;
      assert parts[0] == last + "SET";
    } else {
      assert |parts| >= 4;
    }
  }

  /** As written, a `set` made while the log ends in a partial line is
      answered from memory, yet a restart drops it together with that line:
      the restarted index is what the complete lines alone rebuild. */
  lemma {:induction false} AsWrittenDropsSetAfterPartialLine(content: string, key: string, val: string)
    requires !Terminated(content)
    requires ValidToken(key) && ValidToken(val)
    ensures var before := Set(OpenAsWritten(content), key, val);
            var after := OpenAsWritten(before.log);
            Get(before, key) == Some(val) &&
            after.index == Replay(Empty, Lines(content[..LastBreak(content)]))
  {
    var b := LastBreak(content);
    var pre, last := content[..b], content[b..];
    var merged := last + Encode(key, val);
    assert content == pre + last;
    assert content + Encode(key, val) == pre + merged;
    assert IsLine(Encode(key, val));
    assert IsLine(merged) by {
      forall i | 0 <= i < |merged| - 1 ensures merged[i] != '\n' {
        if i >= |last| { assert merged[i] == Encode(key, val)[i - |last|]; }
      }
    }
    LinesConcat(pre, merged);
    LinesOfLine(merged);
    ReplayConcat(Empty, Lines(pre), [merged]);
    ReplayOne(Replay(Empty, Lines(pre)), merged);
    MergedLineRejected(last, key, val);
  }

  /** The smallest case: the log is one partial line. A `set` is answered
      from memory, and after a restart its key is unknown. */
  lemma AsWrittenLosesSetAfterLonePartialLine(last: string, key: string, val: string)
    requires last != [] && '\n' !in last
    requires ValidToken(key) && ValidToken(val)
    ensures Get(Set(OpenAsWritten(last), key, val), key) == Some(val)
    ensures Get(OpenAsWritten(Set(OpenAsWritten(last), key, val).log), key) == None
  {
    var merged := last + Encode(key, val);
    assert Set(OpenAsWritten(last), key, val).log == merged;
    assert IsLine(Encode(key, val));
    assert IsLine(merged) by {
      forall i | 0 <= i < |merged| - 1 ensures merged[i] != '\n' {
        if i >= |last| { assert merged[i] == Encode(key, val)[i - |last|]; }
      }
    }
    LinesOfLine(merged);
    ReplayOne(Empty, merged);
    MergedLineRejected(last, key, val);
  }

  /** A concrete case: the log holds only the truncated line `SET b`, then
      `set x 1` is acknowledged; after a restart `x` is gone. */
  lemma AsWrittenCounterexample(content: string)
    requires content == "SET b"
    ensures Get(Set(OpenAsWritten(content), "x", "1"), "x") == Some("1")
    ensures Get(OpenAsWritten(Set(OpenAsWritten(content), "x", "1").log), "x") == None
  {
    assert ValidToken("x") && ValidToken("1");
    assert content != [] && '\n' !in content;
    AsWrittenLosesSetAfterLonePartialLine(content, "x", "1");
  }

  /** The same case with the corrected start-up: `x` survives the restart. */
  lemma CorrectedKeepsSetAfterPartialLine()
    ensures Get(Open(Set(Open("SET b"), "x", "1").log), "x") == Some("1")
  {
    assert ValidToken("x") && ValidToken("1");
    var ops := [("x", "1")];
    RecoveryAfterSets("SET b", ops);
    assert SetAll(Open("SET b"), ops) == Set(Open("SET b"), "x", "1");
  }
}
