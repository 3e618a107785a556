/** The on-disk record: one line `SET <key> <value>` ended by a newline, and
    the tolerant parser replay applies to every line of the log. */
module Record {
  import opened Wrappers
  import opened Tokens
  import opened Text

  /** The line `set` appends to the log. */
  function Encode(key: string, val: string): (line: string)
    ensures ValidToken(key) && ValidToken(val) ==> IsLine(line) && EndsWithNewline(line)
  {
    "SET " + key + " " + val + "\n"
  }

  /** Replay's reading of one log line: strip the trailing newlines, split on
      single spaces, and keep the line only when it has exactly three fields,
      the first is literally `SET` and the other two are tokens. */
  function Parse(raw: string): (r: Option<(string, string)>)
    ensures r.Some? ==> ValidToken(r.value.0) && ValidToken(r.value.1)
    ensures r.Some? ==> RStripNewlines(raw) == "SET " + r.value.0 + " " + r.value.1
  {
    var parts := Split(RStripNewlines(raw), ' ');
    if |parts| == 3 && parts[0] == "SET" && ValidToken(parts[1]) && ValidToken(parts[2]) then
      assert parts == [parts[0], parts[1], parts[2]];
      JoinThree(parts[0], parts[1], parts[2], ' ');
      Some((parts[1], parts[2]))
    else
      None
  }

  /** The text of a record splits into its tag, key and value. */
  lemma SplitRecord(key: string, val: string)
    requires ' ' !in key && ' ' !in val
    ensures Split("SET " + key + " " + val, ' ') == ["SET", key, val]
  {
    assert "SET " + key + " " + val == "SET" + [' '] + key + [' '] + val;
    SplitThree("SET", key, val, ' ');
  }

  /** Every line whose text is `SET`, a key and a value separated by single
      spaces is accepted, with exactly that key and value. */
  lemma ParseComplete(raw: string, key: string, val: string)
    requires ValidToken(key) && ValidToken(val)
    requires RStripNewlines(raw) == "SET " + key + " " + val
    ensures Parse(raw) == Some((key, val))
  {
    SplitRecord(key, val);
  }

  /** Replay keeps a line exactly when, after its trailing newlines are
      removed, it reads `SET <key> <value>` with single spaces and tokens. */
  lemma ParseAcceptsExactly(raw: string)
    ensures Parse(raw).Some? <==>
            exists key, val :: ValidToken(key) && ValidToken(val) &&
                               RStripNewlines(raw) == "SET " + key + " " + val
  {
    if exists key, val :: ValidToken(key) && ValidToken(val) &&
                          RStripNewlines(raw) == "SET " + key + " " + val {
      var key, val :| ValidToken(key) && ValidToken(val) &&
                      RStripNewlines(raw) == "SET " + key + " " + val;
      ParseComplete(raw, key, val);
    }
  }

  /** The record `set` writes is read back as the pair it was written for. */
  lemma RoundTrip(key: string, val: string)
    requires ValidToken(key) && ValidToken(val)
    ensures Parse(Encode(key, val)) == Some((key, val))
  {
    var body := "SET " + key + " " + val;
    assert Encode(key, val) == body + "\n";
    RStripAppendedNewline(body);
    assert body[|body| - 1] == val[|val| - 1];
    ParseComplete(Encode(key, val), key, val);
  }

  /** Lines replay skips without complaint: a truncated record, a doubled
      space, a lower-case tag and a record with an extra field. */
  lemma ParseSkipsMalformed()
    ensures Parse("SET b").None?
    ensures Parse("SET  a b\n").None?
    ensures Parse("set a b\n").None?
    ensures Parse("SET a b c\n").None?
  {
    SkipsTruncated();
    SkipsDoubledSpace();
    SkipsLowerCaseTag();
    SkipsExtraField();
  }

  lemma SkipsTruncated()
    ensures Parse("SET b").None?
  {
    var s := "SET b";
    assert RStripNewlines(s) == s;
    forall key, val | ValidToken(key) && ValidToken(val)
      ensures s != "SET " + key + " " + val
    {
      assert |"SET " + key + " " + val| >= 7;
    }
    ParseAcceptsExactly(s);
  }

  lemma SkipsDoubledSpace()
    ensures Parse("SET  a b\n").None?
  {
    var raw := "SET  a b\n";
    var s := "SET  a b";
    assert raw == s + "\n";
    RStripAppendedNewline(s);
    assert RStripNewlines(s) == s;
    forall key, val | ValidToken(key) && ValidToken(val)
      ensures s != "SET " + key + " " + val
    {
      assert ("SET " + key + " " + val)[4] == key[0];
    }
    ParseAcceptsExactly(raw);
  }

  lemma SkipsLowerCaseTag()
    ensures Parse("set a b\n").None?
  {
    var raw := "set a b\n";
    var s := "set a b";
    assert raw == s + "\n";
    RStripAppendedNewline(s);
    assert RStripNewlines(s) == s;
    forall key, val | ValidToken(key) && ValidToken(val)
      ensures s != "SET " + key + " " + val
    {
      assert ("SET " + key + " " + val)[0] == 'S';
    }
    ParseAcceptsExactly(raw);
  }

  lemma SkipsExtraField()
    ensures Parse("SET a b c\n").None?
  {
    var raw := "SET a b c\n";
    var s := "SET a b c";
    assert raw == s + "\n";
    RStripAppendedNewline(s);
    assert RStripNewlines(s) == s;
    forall key, val | ValidToken(key) && ValidToken(val)
      ensures s != "SET " + key + " " + val
    {
      var t := "SET " + key + " " + val;
      // s has spaces at 3, 5 and 7; t has none inside the key or the value.
      if |t| == 9 {
        if |key| >= 2 {
          assert t[5] == key[1];
        } else {
          assert t[7] == val[1];
        }
      }
    }
    ParseAcceptsExactly(raw);
  }
}
