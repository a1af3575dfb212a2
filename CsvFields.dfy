/** The quote-aware field splitter of `parseCSVData` (src/utils.ts): a
    left-to-right scan of one line that toggles a quote flag on every `"`,
    ends a field at every comma met outside quotes, and trims each field. */
module CsvFields {
  import opened JsString

  /** What the scan has built so far: the finished fields (not yet
      trimmed), the field being read, and whether a quote is open. */
  datatype ScanState = ScanState(done: seq<string>, current: string, inQuotes: bool)

  /** One character of the scan: a quote flips the flag and nothing else,
      a comma outside quotes closes one field, and every other character
      extends the current field. Finished fields never change. */
  function Step(st: ScanState, c: char): (r: ScanState)
    ensures r.inQuotes <==> (st.inQuotes != (c == '"'))
    ensures st.done <= r.done && |r.done| == |st.done| + (if c == ',' && !st.inQuotes then 1 else 0)
  {
    if c == '"' then st.(inQuotes := !st.inQuotes)
    else if c == ',' && !st.inQuotes then ScanState(st.done + [st.current], "", st.inQuotes)
    else st.(current := st.current + [c])
  }

  /** One step keeps the fields joined with commas equal to the text read
      so far without its quotes: the join grows by the character unless it
      is a quote. */
  lemma StepJoin(st: ScanState, c: char)
    ensures var r := Step(st, c);
      Join(r.done + [r.current], ',') == Join(st.done + [st.current], ',') + (if c == '"' then [] else [c])
  {
    if c == ',' && !st.inQuotes {
      JoinSnoc(st.done + [st.current], "", ',');
    } else if c != '"' {
      var parts := st.done + [st.current];
      assert (st.done + [st.current + [c]])[..|st.done|] == parts[..|st.done|];
    }
  }

  /** The state after scanning all of `s`. */
  function Scan(s: string): ScanState {
    if s == [] then ScanState([], "", false)
    else Step(Scan(s[..|s| - 1]), s[|s| - 1])
  }

  /** The fields of `s` before trimming: the finished ones and the last. */
  function RawFields(s: string): seq<string> {
    Scan(s).done + [Scan(s).current]
  }

  /** Every part trimmed, in order. */
  function TrimAll(parts: seq<string>): (r: seq<string>)
    ensures |r| == |parts|
    ensures forall k :: 0 <= k < |r| ==> r[k] == Trim(parts[k])
  {
    if parts == [] then []
    else TrimAll(parts[..|parts| - 1]) + [Trim(parts[|parts| - 1])]
  }

  lemma TrimAllAppend(parts: seq<string>, last: string)
    ensures TrimAll(parts + [last]) == TrimAll(parts) + [Trim(last)]
  {
    assert (parts + [last])[..|parts|] == parts;
  }

  /** The values the splitter produces for line `s`. */
  function Fields(s: string): seq<string> {
    TrimAll(RawFields(s))
  }

  /** The splitter loop: `current` and `inQuotes` are updated per
      character and each finished field is trimmed and pushed. */
  method SplitFields(line: string) returns (values: seq<string>)
    ensures values == Fields(line)
  {
    values := [];
    var current := "";
    var inQuotes := false;
    for j := 0 to |line|
      invariant Scan(line[..j]).current == current
      invariant Scan(line[..j]).inQuotes == inQuotes
      invariant values == TrimAll(Scan(line[..j]).done)
    {
      assert line[..j + 1][..j] == line[..j];
      var c := line[j];
      assert Scan(line[..j + 1]) == Step(Scan(line[..j]), c);
      if c == '"' {
        inQuotes := !inQuotes;
      } else if c == ',' && !inQuotes {
        TrimAllAppend(Scan(line[..j]).done, current);
        values := values + [Trim(current)];
        current := "";
      } else {
        current := current + [c];
      }
    }
    assert line[..|line|] == line;
    TrimAllAppend(Scan(line).done, current);
    values := values + [Trim(current)];
  }

  /** Number of `"` characters in `s`. */
  function QuoteCount(s: string): nat {
    CountChar(s, '"')
  }

  /** Number of commas of `s` preceded by an even number of quotes, i.e.
      standing outside a quoted stretch. */
  function UnquotedCommas(s: string): nat {
    if s == [] then 0
    else
      var pre := s[..|s| - 1];
      UnquotedCommas(pre) + (if s[|s| - 1] == ',' && QuoteCount(pre) % 2 == 0 then 1 else 0)
  }

  /** `s` with every `"` removed. */
  function RemoveQuotes(s: string): (r: string)
    ensures '"' !in r
  {
    if s == [] then []
    else RemoveQuotes(s[..|s| - 1]) + (if s[|s| - 1] == '"' then [] else [s[|s| - 1]])
  }

  /** The quote flag is the parity of the quotes seen, and every comma seen
      outside quotes has closed one field. */
  lemma {:induction false} ScanCounts(s: string)
    ensures Scan(s).inQuotes <==> QuoteCount(s) % 2 == 1
    ensures |Scan(s).done| == UnquotedCommas(s)
  {
    if s != [] {
      ScanCounts(s[..|s| - 1]);
    }
  }

  /** The splitter yields one more value than there are commas outside
      double quotes. */
  lemma FieldCount(s: string)
    ensures |Fields(s)| == UnquotedCommas(s) + 1
  {
    ScanCounts(s);
  }

  /** Joining the raw fields with commas gives the line back without its
      quote characters: quotes only toggle the mode, every other character
      (a comma inside quotes too) is kept, and the separating commas are
      exactly the ones outside quotes. */
  lemma {:induction false} RawFieldsJoin(s: string)
    ensures Join(RawFields(s), ',') == RemoveQuotes(s)
  {
    if s != [] {
      var pre, c := s[..|s| - 1], s[|s| - 1];
      RawFieldsJoin(pre);
      StepJoin(Scan(pre), c);
    }
  }

  /** Inside an open quote every character but `"` joins the current
      field: a comma there ends nothing. */
  lemma {:induction false} ScanInsideQuotes(p: string, t: string)
    requires Scan(p).inQuotes && '"' !in t
    ensures Scan(p + t) == Scan(p).(current := Scan(p).current + t)
  {
    if t == [] {
      assert p + t == p;
    } else {
      var t', c := t[..|t| - 1], t[|t| - 1];
      assert t == t' + [c];
      ScanInsideQuotes(p, t');
      assert (p + t)[..|p + t| - 1] == p + t';
      assert Scan(p + t) == Step(Scan(p + t'), c);
    }
  }

  /** A quoted stretch after an even number of quotes is added, commas and
      all, to the last field, and the quotes themselves are dropped. */
  lemma QuotedStretchStays(p: string, t: string)
    requires QuoteCount(p) % 2 == 0 && '"' !in t
    ensures var f := RawFields(p);
      RawFields(p + ['"'] + t + ['"']) == f[..|f| - 1] + [f[|f| - 1] + t]
  {
    ScanCounts(p);
    var q := p + ['"'];
    assert q[..|q| - 1] == p;
    assert Scan(q) == Scan(p).(inQuotes := true);
    ScanInsideQuotes(q, t);
    var s := q + t + ['"'];
    assert s[..|s| - 1] == q + t;
    var f := RawFields(p);
    assert f[..|f| - 1] == Scan(p).done;
  }

  /** A comma after an even number of quotes closes the last field and
      starts an empty one. */
  lemma CommaOutsideQuotesEndsField(p: string)
    requires QuoteCount(p) % 2 == 0
    ensures RawFields(p + [',']) == RawFields(p) + [""]
  {
    ScanCounts(p);
    var s := p + [','];
    assert s[..|s| - 1] == p;
  }

  /** The line `a,"b,c"` splits into the two raw fields `a` and `b,c`. */
  lemma QuotedCommaRawFields()
    ensures RawFields("a,\"b,c\"") == ["a", "b,c"]
  {
    var a := "a";
    assert a[..|a| - 1] == [];
    assert Scan(a) == Step(Scan([]), 'a');
    assert Scan(a) == ScanState([], "a", false);
    assert QuoteCount(a) == 0;
    CommaOutsideQuotesEndsField(a);
    var p := a + [','];
    assert p[..|p| - 1] == a;
    assert QuoteCount(p) == 0;
    QuotedStretchStays(p, "b,c");
    var f := RawFields(p);
    assert f == ["a", ""];
    assert f[..|f| - 1] == ["a"];
    assert f[|f| - 1] + "b,c" == "b,c";
    assert p + ['"'] + "b,c" + ['"'] == "a,\"b,c\"";
  }

  /** The line `a,"b,c"` gives the two values `a` and `b,c`. */
  lemma QuotedCommaExample()
    ensures Fields("a,\"b,c\"") == ["a", "b,c"]
  {
    QuotedCommaRawFields();
    assert !IsWhitespace('a') && !IsWhitespace('b') && !IsWhitespace('c');
    TrimIdempotent("a");
    TrimIdempotent("b,c");
  }

  /** No raw field holds a `"`. */
  lemma {:induction false} RawFieldsQuoteFree(s: string)
    ensures forall k :: 0 <= k < |RawFields(s)| ==> '"' !in RawFields(s)[k]
  {
    if s != [] {
      RawFieldsQuoteFree(s[..|s| - 1]);
      var st := Scan(s[..|s| - 1]);
      assert forall k :: 0 <= k < |st.done| ==> '"' !in st.done[k] by {
        assert forall k :: 0 <= k < |st.done| ==> st.done[k] == RawFields(s[..|s| - 1])[k];
      }
      assert '"' !in st.current by {
        assert st.current == RawFields(s[..|s| - 1])[|st.done|];
      }
    }
  }

  /** `"` never appears in a produced value, and every value is trimmed. */
  lemma FieldsQuoteFreeAndTrimmed(s: string)
    ensures forall k :: 0 <= k < |Fields(s)| ==> '"' !in Fields(s)[k] && IsTrimmed(Fields(s)[k])
  {
    RawFieldsQuoteFree(s);
    var raw := RawFields(s);
    forall k | 0 <= k < |raw|
      ensures '"' !in Trim(raw[k])
    {
      TrimKeepsOut(raw[k], '"');
    }
  }
}
