/** The command loop of `main`: one input line at a time, stripped, split on
    single spaces, dispatched on the upper-cased first word. Input is a
    sequence of lines and output a sequence of printed lines (each printed
    with its newline and flushed at once). */
module Cli {
  import opened Wrappers
  import opened Tokens
  import opened Text
  import opened Record
  import opened KvIndex
  import opened LogStore

  /** What one input line does: the store afterwards, the lines printed, and
      whether the loop stops. */
  datatype StepResult = StepResult(store: Store, out: seq<string>, halt: bool)

  /** A GET prints the value, or an empty line for an absent key. */
  function Shown(v: Option<string>): string {
    v.GetOr("")
  }

  /** The command word, compared after upper-casing. */
  datatype Command = Exit | SetCommand | GetCommand | Unknown

  function CommandOf(word: string): (c: Command)
    ensures c == Exit <==> Upper(word) == "EXIT"
    ensures c == SetCommand <==> Upper(word) == "SET"
    ensures c == GetCommand <==> Upper(word) == "GET"
  {
    var cmd := Upper(word);
    if cmd == "EXIT" then Exit
    else if cmd == "SET" then SetCommand
    else if cmd == "GET" then GetCommand
    else Unknown
  }

  /** A non-blank line, already split into its command word and arguments. */
  function Dispatch(st: Store, parts: seq<string>): (r: StepResult)
    requires st.index.Valid()
    requires |parts| >= 1
    ensures r.store.index.Valid()
    ensures |r.out| <= 1
    ensures |st.log| <= |r.store.log| && r.store.log[..|st.log|] == st.log
    ensures r.halt ==> r.store == st && r.out == []
    ensures r.out == ["ERR"] ==> r.store == st && !r.halt
  {
    match CommandOf(parts[0])
    case Exit =>
      StepResult(st, [], true)
    case SetCommand =>
      if |parts| == 3 && ValidToken(parts[1]) && ValidToken(parts[2]) then
        StepResult(Set(st, parts[1], parts[2]), [], false)
      else
        StepResult(st, ["ERR"], false)
    case GetCommand =>
      if |parts| == 2 && ValidToken(parts[1]) then
        StepResult(st, [Shown(KvIndex.Get(st.index, parts[1]))], false)
      else
        StepResult(st, ["ERR"], false)
    case Unknown =>
      StepResult(st, ["ERR"], false)
  }

  /** One iteration of the loop in `main`: a blank line is skipped, any
      other line is stripped, split on single spaces and dispatched. */
  function Step(st: Store, raw: string): (r: StepResult)
    requires st.index.Valid()
    ensures r.store.index.Valid()
    ensures |r.out| <= 1
    ensures |st.log| <= |r.store.log| && r.store.log[..|st.log|] == st.log
    ensures r.halt ==> r.store == st && r.out == []
    ensures r.out == ["ERR"] ==> r.store == st && !r.halt
  {
    var line := Strip(raw);
    if |line| == 0 then StepResult(st, [], false)
    else Dispatch(st, Split(line, ' '))
  }

  /** The stripped text of `raw` is the word `w` followed by `args`, each
      separated by one space, none of them holding a space. */
  predicate CommandLine(raw: string, w: string, args: seq<string>) {
    && w != []
    && ' ' !in w
    && (forall i :: 0 <= i < |args| ==> ' ' !in args[i])
    && Strip(raw) == Join([w] + args, ' ')
  }

  lemma CommandLineFields(raw: string, w: string, args: seq<string>)
    requires CommandLine(raw, w, args)
    ensures Strip(raw) != []
    ensures Split(Strip(raw), ' ') == [w] + args
    ensures forall st: Store :: st.index.Valid() ==> Step(st, raw) == Dispatch(st, [w] + args)
  {
    var parts := [w] + args;
    assert forall i :: 0 <= i < |parts| ==> ' ' !in parts[i] by {
      forall i | 0 <= i < |parts| ensures ' ' !in parts[i] {
        if i > 0 { assert parts[i] == args[i - 1]; }
      }
    }
    SplitJoin(parts, ' ');
    if |args| > 0 {
      assert parts[1..] == args;
    }
  }

  /** A SET command (in any letter case) stores its pair when it has exactly
      a key and a value, both tokens; otherwise it prints ERR and changes
      neither log nor index. */
  lemma StepSet(st: Store, raw: string, w: string, args: seq<string>)
    requires st.index.Valid()
    requires CommandLine(raw, w, args) && Upper(w) == "SET"
    ensures Step(st, raw) ==
            if |args| == 2 && ValidToken(args[0]) && ValidToken(args[1])
            then StepResult(Set(st, args[0], args[1]), [], false)
            else StepResult(st, ["ERR"], false)
  {
    CommandLineFields(raw, w, args);
    assert ([w] + args)[0] == w;
    assert |args| > 0 ==> ([w] + args)[1] == args[0];
    assert |args| > 1 ==> ([w] + args)[2] == args[1];
  }

  /** A GET command prints the latest value of its key, or an empty line when
      the key was never set; a GET without exactly one token prints ERR.
      Neither changes the store. */
  lemma StepGet(st: Store, raw: string, w: string, args: seq<string>)
    requires st.index.Valid()
    requires CommandLine(raw, w, args) && Upper(w) == "GET"
    ensures Step(st, raw) ==
            if |args| == 1 && ValidToken(args[0])
            then StepResult(st, [Shown(KvIndex.Get(st.index, args[0]))], false)
            else StepResult(st, ["ERR"], false)
    ensures |args| == 1 && ValidToken(args[0]) && args[0] !in st.index.keys ==>
            Step(st, raw).out == [""]
    ensures |args| == 1 && ValidToken(args[0]) ==>
            forall i :: LatestAt(st.index, args[0], i) ==> Step(st, raw).out == [st.index.vals[i]]
  {
    CommandLineFields(raw, w, args);
    assert ([w] + args)[0] == w;
    assert |args| > 0 ==> ([w] + args)[1] == args[0];
  }

  /** EXIT stops the loop, whatever follows the word, with no output. */
  lemma StepExit(st: Store, raw: string, w: string, args: seq<string>)
    requires st.index.Valid()
    requires CommandLine(raw, w, args) && Upper(w) == "EXIT"
    ensures Step(st, raw) == StepResult(st, [], true)
  {
    CommandLineFields(raw, w, args);
    assert ([w] + args)[0] == w;
    assert |args| > 0 ==> ([w] + args)[1] == args[0];
    assert |args| > 1 ==> ([w] + args)[2] == args[1];
  }

  /** Any other command word prints ERR and changes nothing. */
  lemma StepUnknown(st: Store, raw: string, w: string, args: seq<string>)
    requires st.index.Valid()
    requires CommandLine(raw, w, args)
    requires Upper(w) != "SET" && Upper(w) != "GET" && Upper(w) != "EXIT"
    ensures Step(st, raw) == StepResult(st, ["ERR"], false)
  {
    CommandLineFields(raw, w, args);
    assert ([w] + args)[0] == w;
    assert |args| > 0 ==> ([w] + args)[1] == args[0];
    assert |args| > 1 ==> ([w] + args)[2] == args[1];
  }

  /** A line as a user types it: the fields with single spaces, a newline. */
  lemma TypedLine(w: string, args: seq<string>)
    requires ValidToken(w)
    requires forall i :: 0 <= i < |args| ==> ValidToken(args[i])
    ensures CommandLine(Join([w] + args, ' ') + "\n", w, args)
  {
    var line := Join([w] + args, ' ');
    LastFieldEnds(w, args);
    JoinStarts(w, args);
    StripNewline(line);
    assert forall i :: 0 <= i < |args| ==> ' ' !in args[i] by {
      forall i | 0 <= i < |args| ensures ' ' !in args[i] {
        assert ValidToken(args[i]);
      }
    }
  }

  /** The newline ending a typed line is stripped, and nothing else. */
  lemma StripNewline(line: string)
    requires line != [] && !IsSpace(line[0]) && !IsSpace(line[|line| - 1])
    ensures Strip(line + "\n") == line
  {
    assert IsSpace("\n"[0]);
    StripPadded("", line, "\n");
    assert "" + line + "\n" == line + "\n";
  }

  lemma JoinStarts(w: string, args: seq<string>)
    requires w != []
    ensures Join([w] + args, ' ') != [] && Join([w] + args, ' ')[0] == w[0]
  {
    if |args| > 0 {
      assert ([w] + args)[1..] == args;
    }
  }

  lemma {:induction false} LastFieldEnds(w: string, args: seq<string>)
    requires w != [] && !IsSpace(w[|w| - 1])
    requires forall i :: 0 <= i < |args| ==> ValidToken(args[i])
    ensures var line := Join([w] + args, ' ');
            line != [] && !IsSpace(line[|line| - 1])
    decreases |args|
  {
    if |args| > 0 {
      var a := args[0];
      assert ([w] + args)[1..] == [a] + args[1..];
      assert a != [] && !IsSpace(a[|a| - 1]);
      LastFieldEnds(a, args[1..]);
    }
  }

  /** The loop over all input lines, stopping after EXIT or at the end of input. */
  datatype Session = Session(store: Store, out: seq<string>, halted: bool)

  function Run(st: Store, input: seq<string>): (r: Session)
    requires st.index.Valid()
    ensures r.store.index.Valid()
    ensures |r.out| <= |input|
    ensures |st.log| <= |r.store.log| && r.store.log[..|st.log|] == st.log
    decreases |input|
  {
    if |input| == 0 then Session(st, [], false)
    else
      var o := Step(st, input[0]);
      if o.halt then Session(o.store, o.out, true)
      else
        var rest := Run(o.store, input[1..]);
        assert rest.store.log[..|st.log|] == rest.store.log[..|o.store.log|][..|st.log|];
        Session(rest.store, o.out + rest.out, rest.halted)
  }

  /** A line of nothing but whitespace is skipped: no output, no change. */
  lemma StepBlankLine(st: Store, raw: string)
    requires st.index.Valid()
    requires forall i :: 0 <= i < |raw| ==> IsSpace(raw[i])
    ensures Step(st, raw) == StepResult(st, [], false)
  {
  }

  /** An input line either leaves the store alone or performs exactly one
      `set` with tokens, silently. */
  lemma StepEffect(st: Store, raw: string)
    requires st.index.Valid()
    ensures var r := Step(st, raw);
            r.store == st ||
            (r.out == [] && !r.halt &&
             exists key, val :: ValidToken(key) && ValidToken(val) && r.store == Set(st, key, val))
  {
  }

  /** Every input line keeps the log and the index in step. */
  lemma StepPreservesConsistency(st: Store, raw: string)
    requires Consistent(st)
    ensures Consistent(Step(st, raw).store)
  {
    StepEffect(st, raw);
    var r := Step(st, raw);
    if r.store != st {
      var key, val :| ValidToken(key) && ValidToken(val) && r.store == Set(st, key, val);
      SetPreservesConsistency(st, key, val);
    }
  }

  /** A whole run of the loop keeps the log and the index in step. */
  lemma {:induction false} RunPreservesConsistency(st: Store, input: seq<string>)
    requires Consistent(st)
    ensures Consistent(Run(st, input).store)
    decreases |input|
  {
    if |input| > 0 {
      StepPreservesConsistency(st, input[0]);
      var o := Step(st, input[0]);
      if !o.halt {
        RunPreservesConsistency(o.store, input[1..]);
      }
    }
  }

  /** Nothing after EXIT is processed. */
  lemma {:induction false} RunStopsAtExit(st: Store, input: seq<string>, more: seq<string>)
    requires st.index.Valid()
    requires Run(st, input).halted
    ensures Run(st, input + more) == Run(st, input)
    decreases |input|
  {
    assert (input + more)[0] == input[0];
    assert (input + more)[1..] == input[1..] + more;
    var o := Step(st, input[0]);
    if !o.halt {
      RunStopsAtExit(o.store, input[1..], more);
    }
  }

  /** `main`: open the log file's text and run the command loop on the
      input. Whatever the input, the log only grows from what was found and
      always replays to the index the session ends with. */
  function Serve(content: string, input: seq<string>): (r: Session)
    ensures Consistent(r.store)
    ensures |content| <= |r.store.log| && r.store.log[..|content|] == content
  {
    var s := Open(content);
    var r := Run(s, input);
    RunPreservesConsistency(s, input);
    PrefixOfPrefix(r.store.log, s.log, |content|);
    r
  }

  /** `main` with start-up as the program does it, leaving the log found
      untouched. The log still only grows from what was found; when that log
      ended at a line boundary, the session is the one `Serve` gives, so the
      log replays to the index the session ends with. */
  function ServeAsWritten(content: string, input: seq<string>): (r: Session)
    ensures |content| <= |r.store.log| && r.store.log[..|content|] == content
    ensures Terminated(content) ==> r == Serve(content, input) && Consistent(r.store)
  {
    Run(OpenAsWritten(content), input)
  }

  // ---------------------------------------------------------------------
  // Commands as typed, and a whole session
  // ---------------------------------------------------------------------

  /** `SET k v` typed with tokens, the command word in any letter case,
      stores the pair and prints nothing. */
  lemma TypedSet(st: Store, w: string, key: string, val: string)
    requires st.index.Valid()
    requires ValidToken(w) && Upper(w) == "SET"
    requires ValidToken(key) && ValidToken(val)
    ensures Step(st, w + " " + key + " " + val + "\n") == StepResult(Set(st, key, val), [], false)
  {
    TypedLine(w, [key, val]);
    SetLineFields(w, key, val);
    StepSet(st, w + " " + key + " " + val + "\n", w, [key, val]);
  }

  lemma SetLineFields(w: string, key: string, val: string)
    ensures Join([w] + [key, val], ' ') + "\n" == w + " " + key + " " + val + "\n"
  {
    JoinThree(w, key, val, ' ');
    assert [w] + [key, val] == [w, key, val];
  }

  /** `GET k` typed with a token, the command word in any letter case,
      prints the answer of the index. */
  lemma TypedGet(st: Store, w: string, key: string)
    requires st.index.Valid()
    requires ValidToken(w) && Upper(w) == "GET"
    requires ValidToken(key)
    ensures Step(st, w + " " + key + "\n") == StepResult(st, [Shown(KvIndex.Get(st.index, key))], false)
  {
    TypedLine(w, [key]);
    GetLineFields(w, key);
    StepGet(st, w + " " + key + "\n", w, [key]);
  }

  lemma GetLineFields(w: string, key: string)
    ensures Join([w] + [key], ' ') + "\n" == w + " " + key + "\n"
  {
    assert ([w] + [key])[1..] == [key];
    assert Join([key], ' ') == key;
  }

  /** `EXIT`, in any letter case, stops the loop. */
  lemma TypedExit(st: Store, w: string)
    requires st.index.Valid()
    requires ValidToken(w) && Upper(w) == "EXIT"
    ensures Step(st, w + "\n") == StepResult(st, [], true)
  {
    TypedLine(w, []);
    assert [w] + [] == [w];
    StepExit(st, w + "\n", w, []);
  }

  /** A SET with three tokens after the command word is refused. */
  lemma TypedSetExtraField(st: Store, w: string, a: string, b: string, c: string)
    requires st.index.Valid()
    requires ValidToken(w) && Upper(w) == "SET"
    requires ValidToken(a) && ValidToken(b) && ValidToken(c)
    ensures Step(st, w + " " + a + " " + b + " " + c + "\n") == StepResult(st, ["ERR"], false)
  {
    var raw := w + " " + a + " " + b + " " + c + "\n";
    assert CommandLine(raw, w, [a, b, c]) by {
      TypedLine(w, [a, b, c]);
      FourFields(w, a, b, c);
    }
    StepSet(st, raw, w, [a, b, c]);
  }

  lemma FourFields(w: string, a: string, b: string, c: string)
    ensures Join([w] + [a, b, c], ' ') + "\n" == w + " " + a + " " + b + " " + c + "\n"
  {
    assert ([w] + [a, b, c])[1..] == [a, b, c];
    JoinThree(a, b, c, ' ');
  }

  /** A key holding a space arrives as two fields, so the SET is refused. */
  lemma SpaceInKeyRejected(st: Store, raw: string)
    requires st.index.Valid()
    requires raw == "SET a b 1\n"
    ensures Step(st, raw) == StepResult(st, ["ERR"], false)
  {
    CommandWords();
    assert ValidToken("a") && ValidToken("b") && ValidToken("1");
    assert raw == "SET" + " " + "a" + " " + "b" + " " + "1" + "\n";
    TypedSetExtraField(st, "SET", "a", "b", "1");
  }

  /** One line that does not stop the loop, followed by the rest of the input. */
  lemma RunOn(st: Store, line: string, rest: seq<string>, o: StepResult, tail: Session)
    requires st.index.Valid()
    requires Step(st, line) == o && !o.halt
    requires Run(o.store, rest) == tail
    ensures Run(st, [line] + rest) == Session(tail.store, o.out + tail.out, tail.halted)
  {
    assert ([line] + rest)[0] == line;
    assert ([line] + rest)[1..] == rest;
  }

  /** A line that stops the loop: whatever follows is not read. */
  lemma RunHalts(st: Store, line: string, rest: seq<string>)
    requires st.index.Valid()
    requires Step(st, line).halt
    ensures Run(st, [line] + rest) == Session(Step(st, line).store, Step(st, line).out, true)
  {
    assert ([line] + rest)[0] == line;
  }

  /** The last two lines of the session below: a read of an absent key and EXIT. */
  lemma SessionEnd(s: Store, l4: string, l5: string)
    requires s.index.Valid()
    requires Step(s, l4) == StepResult(s, [""], false)
    requires Step(s, l5) == StepResult(s, [], true)
    ensures Run(s, [l4] + ([l5] + [])) == Session(s, [""], true)
  {
    var t5 := [l5] + [];
    assert Run(s, t5) == Session(s, [], true) by {
      RunHalts(s, l5, []);
    }
    RunOn(s, l4, t5, StepResult(s, [""], false), Session(s, [], true));
  }

  /** The last three lines of the session below: two reads and EXIT. */
  lemma SessionTail(s: Store, l3: string, l4: string, l5: string, v: string)
    requires s.index.Valid()
    requires Step(s, l3) == StepResult(s, [v], false)
    requires Run(s, [l4] + ([l5] + [])) == Session(s, [""], true)
    ensures Run(s, [l3] + ([l4] + ([l5] + []))) == Session(s, [v, ""], true)
  {
    RunOn(s, l3, [l4] + ([l5] + []), StepResult(s, [v], false), Session(s, [""], true));
  }

  /** The first three lines of the session below, given how the rest ends. */
  lemma SessionHead(s0: Store, s1: Store, s2: Store, l0: string, l1: string, l2: string,
                    rest: seq<string>, v: string, tail: Session)
    requires s0.index.Valid() && s1.index.Valid() && s2.index.Valid()
    requires Step(s0, l0) == StepResult(s1, [], false)
    requires Step(s1, l1) == StepResult(s1, [v], false)
    requires Step(s1, l2) == StepResult(s2, [], false)
    requires Run(s2, rest) == tail
    ensures Run(s0, [l0, l1, l2] + rest) == Session(tail.store, [v] + tail.out, tail.halted)
  {
    var t2 := [l2] + rest;
    assert Run(s1, t2) == tail by {
      RunOn(s1, l2, rest, StepResult(s2, [], false), tail);
    }
    var t1 := [l1] + t2;
    assert Run(s1, t1) == Session(tail.store, [v] + tail.out, tail.halted) by {
      RunOn(s1, l1, t2, StepResult(s1, [v], false), tail);
    }
    RunOn(s0, l0, t1, StepResult(s1, [], false), Session(tail.store, [v] + tail.out, tail.halted));
    ConsThree(l0, l1, l2, rest);
  }

  lemma ConsThree<T>(a: T, b: T, c: T, rest: seq<T>)
    ensures [a] + ([b] + ([c] + rest)) == [a, b, c] + rest
  {
  }

  lemma OneAndTwo<T>(a: T, b: T, c: T)
    ensures [a] + [b, c] == [a, b, c]
  {
  }

  /** Six lines, the last three given as a list built one line at a time. */
  lemma SixLines<T>(a: T, b: T, c: T, d: T, e: T, f: T)
    ensures [a, b, c] + ([d] + ([e] + ([f] + []))) == [a, b, c, d, e, f]
  {
  }

  /** Two writes to a new log leave exactly their two records, and reopening
      that log gives back the same store. */
  lemma TwoSetsRecover(k: string, v1: string, v2: string)
    requires ValidToken(k) && ValidToken(v1) && ValidToken(v2)
    ensures var s2 := Set(Set(Store("", Empty), k, v1), k, v2);
            s2.log == Encode(k, v1) + Encode(k, v2) && Open(s2.log) == s2
  {
    var s0 := Store("", Empty);
    var s1 := Set(s0, k, v1);
    var s2 := Set(s1, k, v2);
    assert s1.log == Encode(k, v1);
    assert s2.log == s1.log + Encode(k, v2);
    assert Open("") == s0 by {
      assert Lines("") == [];
    }
    var ops := [(k, v1), (k, v2)];
    assert SetAll(s0, ops) == s2 by {
      assert ops[1..] == [(k, v2)];
      assert ops[1..][1..] == [];
      assert SetAll(s2, []) == s2;
      assert SetAll(s1, [(k, v2)]) == s2;
    }
    assert AllTokens(ops) by {
      assert ops[0] == (k, v1) && ops[1] == (k, v2);
    }
    RecoveryAfterSets("", ops);
  }

  /** Set a key twice, read it after each write, read a key never set, exit
      (the command words in any letter case):
      the reads print the first value, the second value and an empty line,
      the log holds exactly the two records, and after a restart the key
      reads the second value with no further SET. */
  lemma SetGetSession(setw: string, getw: string, exit: string,
                       k: string, v1: string, v2: string, other: string)
    requires ValidToken(setw) && Upper(setw) == "SET"
    requires ValidToken(getw) && Upper(getw) == "GET"
    requires ValidToken(exit) && Upper(exit) == "EXIT"
    requires ValidToken(k) && ValidToken(v1) && ValidToken(v2) && ValidToken(other) && other != k
    ensures var r := Serve("", [setw + " " + k + " " + v1 + "\n", getw + " " + k + "\n", setw + " " + k + " " + v2 + "\n",
                                getw + " " + k + "\n", getw + " " + other + "\n", exit + "\n"]);
            && r.out == [v1, v2, ""]
            && r.halted
            && r.store.log == Encode(k, v1) + Encode(k, v2)
            && LogStore.Get(Open(r.store.log), k) == Some(v2)
  {
    var s0 := Store("", Empty);
    var s1 := Set(s0, k, v1);
    var s2 := Set(s1, k, v2);
    var l0, l1, l2 := setw + " " + k + " " + v1 + "\n", getw + " " + k + "\n", setw + " " + k + " " + v2 + "\n";
    var l3, l4, l5 := getw + " " + k + "\n", getw + " " + other + "\n", exit + "\n";
    var tail := [l3] + ([l4] + ([l5] + []));
    assert Run(s2, tail) == Session(s2, [v2, ""], true) by {
      assert Step(s2, l4) == StepResult(s2, [""], false) by {
        assert KvIndex.Get(s2.index, other) == KvIndex.Get(s1.index, other) == KvIndex.Get(Empty, other) == None;
        TypedGet(s2, getw, other);
      }
      assert Step(s2, l5) == StepResult(s2, [], true) by {
        TypedExit(s2, exit);
      }
      SessionEnd(s2, l4, l5);
      assert Step(s2, l3) == StepResult(s2, [v2], false) by {
        TypedGet(s2, getw, k);
      }
      SessionTail(s2, l3, l4, l5, v2);
    }
    assert Run(s0, [l0, l1, l2] + tail) == Session(s2, [v1, v2, ""], true) by {
      assert Step(s0, l0) == StepResult(s1, [], false) by {
        TypedSet(s0, setw, k, v1);
      }
      assert Step(s1, l1) == StepResult(s1, [v1], false) by {
        TypedGet(s1, getw, k);
      }
      assert Step(s1, l2) == StepResult(s2, [], false) by {
        TypedSet(s1, setw, k, v2);
      }
      SessionHead(s0, s1, s2, l0, l1, l2, tail, v1, Session(s2, [v2, ""], true));
      OneAndTwo(v1, v2, "");
    }
    SixLines(l0, l1, l2, l3, l4, l5);
    TwoSetsRecover(k, v1, v2);
  }

  /** The session `SET x 10, GET x, SET x 20, GET x, GET y, EXIT` on a new
      log prints `10`, `20` and an empty line and leaves the two records
      `SET x 10` and `SET x 20`; after a restart `x` reads `20`. */
  lemma ExampleSession(input: seq<string>)
    requires input == ["SET x 10\n", "GET x\n", "SET x 20\n", "GET x\n", "GET y\n", "EXIT\n"]
    ensures var r := Serve("", input);
            && r.out == ["10", "20", ""]
            && r.halted
            && r.store.log == "SET x 10\nSET x 20\n"
            && LogStore.Get(Open(r.store.log), "x") == Some("20")
  {
    ExampleLines(input);
    CommandWords();
    assert ValidToken("x") && ValidToken("y") && ValidToken("10") && ValidToken("20");
    SetGetSession("SET", "GET", "EXIT", "x", "10", "20", "y");
  }

  /** The example session's lines, spelled as the fields typed. */
  lemma ExampleLines(input: seq<string>)
    requires input == ["SET x 10\n", "GET x\n", "SET x 20\n", "GET x\n", "GET y\n", "EXIT\n"]
    ensures input == ["SET" + " " + "x" + " " + "10" + "\n", "GET" + " " + "x" + "\n",
                      "SET" + " " + "x" + " " + "20" + "\n", "GET" + " " + "x" + "\n",
                      "GET" + " " + "y" + "\n", "EXIT" + "\n"]
    ensures Encode("x", "10") + Encode("x", "20") == "SET x 10\nSET x 20\n"
  {
    assert "SET" + " " + "x" + " " + "10" + "\n" == "SET x 10\n";
    assert "SET" + " " + "x" + " " + "20" + "\n" == "SET x 20\n";
    assert "GET" + " " + "x" + "\n" == "GET x\n";
    assert "GET" + " " + "y" + "\n" == "GET y\n";
    assert "EXIT" + "\n" == "EXIT\n";
    assert input == ["SET" + " " + "x" + " " + "10" + "\n", "GET" + " " + "x" + "\n",
                     "SET" + " " + "x" + " " + "20" + "\n", "GET" + " " + "x" + "\n",
                     "GET" + " " + "y" + "\n", "EXIT" + "\n"];
    assert Encode("x", "10") + Encode("x", "20") == "SET x 10\nSET x 20\n";
  }

  /** The three command words, as the loop compares them. */
  lemma CommandWords()
    ensures ValidToken("SET") && Upper("SET") == "SET"
    ensures ValidToken("GET") && Upper("GET") == "GET"
    ensures ValidToken("EXIT") && Upper("EXIT") == "EXIT"
  {
  }

}
