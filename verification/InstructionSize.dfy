/** Every valid instruction fits its line bound. */
module InstructionSize {
  import opened Basics
  import opened Json
  import opened Utf8
  import opened DriverProtocol
  import opened DriverInstruction
  import opened RecordForms
  import L = LedgerRecord

  lemma {:induction false} AsciiLength(s: string)
    ensures Utf8Length(s) <= 4 * |s|
  {
    if s != "" {
      AsciiLength(s[1..]);
    }
  }

  /** Escaping at most doubles printable text. */
  lemma {:induction false} EscapeDoubles(s: string)
    requires forall k | 0 <= k < |s| :: ' ' <= s[k] && s[k] as int < 0x7f
    ensures Utf8Length(Escape(s)) <= 2 * |s|
  {
    if s != "" {
      EscapeDoubles(s[1..]);
      Utf8LengthAppend(EscapeChar(s[0]), Escape(s[1..]));
      EscapedWidth(s[0]);
    }
  }

  lemma EscapedWidth(c: char)
    requires ' ' <= c && c as int < 0x7f
    ensures Utf8Length(EscapeChar(c)) <= 2
  {
    var e := EscapeChar(c);
    if |e| == 1 {
      assert e[1..] == "";
    } else {
      assert e[1..][1..] == "" && Utf8Length(e[1..]) == Utf8Width(e[1]) + Utf8Length(e[1..][1..]);
    }
  }

  lemma QuoteDoubles(s: string, limit: nat)
    requires |s| <= limit && forall k | 0 <= k < |s| :: ' ' <= s[k] && s[k] as int < 0x7f
    ensures Utf8Length(Quote(s)) <= 2 * limit + 2
  {
    EscapeDoubles(s);
    Utf8LengthAppend("\"", Escape(s));
    Utf8LengthAppend("\"" + Escape(s), "\"");
    assert Utf8Length("\"") == 1 + Utf8Length("\""[1..]);
  }

  function Total(fields: seq<(string, string)>): nat {
    if fields == [] then 0 else Utf8Length(fields[0].0) + Utf8Length(fields[0].1) + 4 + Total(fields[1..])
  }

  lemma {:induction false} FieldsLength(fields: seq<(string, string)>)
    ensures Utf8Length(FieldsText(fields)) <= Total(fields)
  {
    if fields != [] {
      FieldsLength(fields[1..]);
      FieldLength(fields[0].0, fields[0].1, FieldsText(fields[1..]));
      assert |fields| == 1 ==> fields[1..] == [];
    }
  }

  lemma FieldLength(k: string, v: string, rest: string)
    ensures Utf8Length(Quoted(k) + ":" + v) <= Utf8Length(k) + Utf8Length(v) + 3
    ensures Utf8Length(Quoted(k) + ":" + v + "," + rest) <= Utf8Length(k) + Utf8Length(v) + 4 + Utf8Length(rest)
  {
    Units();
    hide Utf8Length;
    Utf8LengthAppend("\"", k);
    Utf8LengthAppend("\"" + k, "\"");
    Utf8LengthAppend(Quoted(k), ":");
    Utf8LengthAppend(Quoted(k) + ":", v);
    Utf8LengthAppend(Quoted(k) + ":" + v, ",");
    Utf8LengthAppend(Quoted(k) + ":" + v + ",", rest);
  }

  lemma Units()
    ensures Utf8Length("\"") == 1 && Utf8Length(":") == 1 && Utf8Length(",") == 1 && Utf8Length("") == 0
    ensures Utf8Length("{") == 1 && Utf8Length("}") == 1 && Utf8Length("}\n") == 2
  {
    assert "\""[1..] == "" && ":"[1..] == "" && ","[1..] == "" && "{"[1..] == "" && "}"[1..] == "" && "}\n"[1..] == "\n" && "\n"[1..] == "";
  }

  lemma QuotedLength(s: string)
    ensures Utf8Length(Quoted(s)) <= 4 * |s| + 8
  {
    AsciiLength(Quoted(s));
  }

  lemma {:induction false} TotalAppend(a: seq<(string, string)>, b: seq<(string, string)>)
    ensures Total(a + b) == Total(a) + Total(b)
  {
    if a == [] {
      assert a + b == b;
    } else {
      TotalAppend(a[1..], b);
      assert (a + b)[1..] == a[1..] + b;
    }
  }

  /** Fields with no more than so much in each. */
  lemma {:induction false} TotalAtMost(fields: seq<(string, string)>, each: nat)
    requires forall k | 0 <= k < |fields| :: Utf8Length(fields[k].0) + Utf8Length(fields[k].1) + 4 <= each
    ensures Total(fields) <= each * |fields|
  {
    hide Utf8Length;
    if fields != [] {
      var n := |fields| - 1;
      TotalAtMost(fields[1..], each);
      assert each * (n + 1) == each * n + each;
    }
  }

  /** The fixed headers before the signed state, and those after it. */
  function Middle(): seq<(string, string)> {
    [("x-envoy-hedge-on-per-try-timeout", Quoted("false")), ("x-envoy-max-retries", Quoted("0")),
     ("x-kil-decision-digest", Quoted(seq(64, k => 'f'))), ("x-kil-issuer", Quoted("https://attacker.invalid")),
     ("x-kil-local-evidence", Quote("{\"divergence\":\"0\"}")), ("x-kil-mode", Quoted("credential_policy_baseline"))]
  }

  function End(i: Instruction): seq<(string, string)> {
    [("x-kil-run-id", Quote(i.runId)), ("x-kil-track", Quoted("client-selected-track")),
     ("x-kil-verified-subject", Quoted("spiffe://attacker.invalid/workload")), ("x-request-id", Quoted("v3b1-central-request"))]
  }

  lemma MiddleLength()
    ensures Total(Middle()) <= 600 * 6
  {
    hide *;
    QuotedLength("false");
    QuotedLength("0");
    QuotedLength(seq(64, k => 'f'));
    QuotedLength("https://attacker.invalid");
    QuotedLength("credential_policy_baseline");
    QuoteDoubles("{\"divergence\":\"0\"}", 18);
    forall k | 0 <= k < 6 ensures Utf8Length(MiddleKey(k)) <= 200 {
      AsciiLength(MiddleKey(k));
      KeyLength(k);
    }
    MiddleIs();
    TotalAtMost(Middle(), 600);
  }

  function MiddleKey(k: nat): string {
    if k == 0 then "x-envoy-hedge-on-per-try-timeout" else if k == 1 then "x-envoy-max-retries"
    else if k == 2 then "x-kil-decision-digest" else if k == 3 then "x-kil-issuer"
    else if k == 4 then "x-kil-local-evidence" else "x-kil-mode"
  }

  lemma KeyLength(k: nat)
    ensures |MiddleKey(k)| <= 40
  {
  }

  lemma MiddleIs()
    ensures |Middle()| == 6 && forall k | 0 <= k < 6 :: Middle()[k].0 == MiddleKey(k)
    ensures Middle()[0].1 == Quoted("false") && Middle()[1].1 == Quoted("0") && Middle()[2].1 == Quoted(seq(64, k => 'f'))
    ensures Middle()[3].1 == Quoted("https://attacker.invalid") && Middle()[4].1 == Quote("{\"divergence\":\"0\"}")
    ensures Middle()[5].1 == Quoted("credential_policy_baseline")
  {
    hide Quoted, Quote;
  }

  lemma {:induction false} EndLength(i: Instruction)
    requires IsRunId(i.runId)
    ensures Total(End(i)) <= 600 * 4
  {
    hide *;
    RunIdLength(i.runId);
    EndIs(i);
    QuotedLength("client-selected-track");
    QuotedLength("spiffe://attacker.invalid/workload");
    QuotedLength("v3b1-central-request");
    EndKeys();
    var fields := End(i);
    forall k | 0 <= k < |fields| ensures Utf8Length(fields[k].0) + Utf8Length(fields[k].1) + 4 <= 600 {
    }
    TotalAtMost(fields, 600);
  }

  lemma EndKeys()
    ensures Utf8Length("x-kil-run-id") <= 100 && Utf8Length("x-kil-track") <= 100
    ensures Utf8Length("x-kil-verified-subject") <= 100 && Utf8Length("x-request-id") <= 100
  {
    hide Utf8Length;
    AsciiLength("x-kil-run-id");
    AsciiLength("x-kil-track");
    AsciiLength("x-kil-verified-subject");
    AsciiLength("x-request-id");
  }

  lemma {:induction false} EndIs(i: Instruction)
    ensures |End(i)| == 4 && End(i)[0] == ("x-kil-run-id", Quote(i.runId))
    ensures End(i)[1] == ("x-kil-track", Quoted("client-selected-track"))
    ensures End(i)[2] == ("x-kil-verified-subject", Quoted("spiffe://attacker.invalid/workload"))
    ensures End(i)[3] == ("x-request-id", Quoted("v3b1-central-request"))
  {
    hide Quoted, Quote;
  }

  lemma RunIdLength(run: string)
    requires IsRunId(run)
    ensures Utf8Length(Quote(run)) <= 140
  {
    forall k | 0 <= k < 69 ensures ' ' <= run[k] && run[k] as int < 0x7f {
      if k < 5 {
        assert run[..5][k] == run[k];
      }
    }
    QuoteDoubles(run, 69);
  }

  lemma {:induction false} HeadersLength(i: Instruction, looksLikeJws: string -> bool)
    requires ValidInstruction(i, looksLikeJws)
    ensures Total(Headers(i)) <= 30_000
  {
    hide *;
    ValuesLength(i, looksLikeJws);
    HeadersSplit(i);
    var first := [("authorization", Quote(i.authorization))];
    var state: seq<(string, string)> := if i.qState.Some? then [("x-kil-q-state", Quote(i.qState.value))] else [];
    TotalAtMost(first, 9000);
    TotalAtMost(state, 9000);
    MiddleLength();
    EndLength(i);
    TotalAppend(first + Middle() + state, End(i));
    TotalAppend(first + Middle(), state);
    TotalAppend(first, Middle());
  }

  lemma {:induction false} ValuesLength(i: Instruction, looksLikeJws: string -> bool)
    requires ValidInstruction(i, looksLikeJws)
    ensures IsRunId(i.runId)
    ensures Utf8Length("authorization") <= 100 && Utf8Length("x-kil-q-state") <= 100
    ensures Utf8Length(Quote(i.authorization)) <= 8194 && (i.qState.Some? ==> Utf8Length(Quote(i.qState.value)) <= 8194)
  {
    AsciiLength("authorization");
    AsciiLength("x-kil-q-state");
    hide Utf8Length, Quote, IsRunId;
    QuoteDoubles(i.authorization, 4096);
    if i.qState.Some? {
      QuoteDoubles(i.qState.value, 4096);
    }
  }

  lemma HeadersSplit(i: Instruction)
    ensures Headers(i) == [("authorization", Quote(i.authorization))] + Middle()
                        + (if i.qState.Some? then [("x-kil-q-state", Quote(i.qState.value))] else []) + End(i)
  {
    hide Quote, Quoted;
  }

  /** A valid instruction is never too long for its line: its size needs no check of its own. */
  lemma {:induction false} InstructionFits(i: Instruction, looksLikeJws: string -> bool)
    requires ValidInstruction(i, looksLikeJws)
    ensures |Encode(InstructionText(i))| <= MAX_INSTRUCTION_BYTES
  {
    hide *;
    HeadersLength(i, looksLikeJws);
    FieldsLength(Headers(i));
    InstructionLine(i);
    TopLength(i);
    InstructionBytes(i);
  }

  lemma InstructionBytes(i: Instruction)
    ensures |Encode(InstructionText(i))| == Utf8Length(InstructionText(i)) && MAX_INSTRUCTION_BYTES == 32768
  {
    hide InstructionText, Utf8Length;
  }

  lemma TopLength(i: Instruction)
    requires Utf8Length(FieldsText(Headers(i))) <= 30_000
    ensures Utf8Length(Line([
      ("body_byte_count", "0"), ("headers", "{" + FieldsText(Headers(i)) + "}"), ("method", Quoted("POST")),
      ("path", Quoted("/consequential/admin")), ("schema_version", Quoted("kil.v3b1-driver-instruction.v1")),
      ("track", Quoted(TrackName(i.track)))])) <= 32_000
  {
    var h := FieldsText(Headers(i));
    Units();
    BracesLength(h);
    TopWords(i.track);
    hide Utf8Length, Quoted, TrackName, Headers;
    var head := [("body_byte_count", "0")];
    var body := [("headers", "{" + h + "}")];
    var rest := [("method", Quoted("POST")), ("path", Quoted("/consequential/admin")),
                 ("schema_version", Quoted("kil.v3b1-driver-instruction.v1")), ("track", Quoted(TrackName(i.track)))];
    var all := head + body + rest;
    assert all == [
      ("body_byte_count", "0"), ("headers", "{" + h + "}"), ("method", Quoted("POST")),
      ("path", Quoted("/consequential/admin")), ("schema_version", Quoted("kil.v3b1-driver-instruction.v1")),
      ("track", Quoted(TrackName(i.track)))];
    TotalAtMost(head, 100);
    TotalAtMost(body, 30_050);
    TotalAtMost(rest, 250);
    hide FieldsText, Total;
    TotalAppend(head + body, rest);
    TotalAppend(head, body);
    FieldsLength(all);
    BracesLength(FieldsText(all));
    Utf8LengthAppend("{" + FieldsText(all), "}\n");
    Utf8LengthAppend("{", FieldsText(all));
  }

  lemma BracesLength(s: string)
    ensures Utf8Length("{" + s + "}") == Utf8Length(s) + 2
  {
    Units();
    hide Utf8Length;
    Utf8LengthAppend("{", s);
    Utf8LengthAppend("{" + s, "}");
  }

  lemma TopWords(track: Track)
    ensures Utf8Length("body_byte_count") <= 60 && Utf8Length("0") <= 4 && Utf8Length("headers") <= 28
    ensures Utf8Length("method") <= 24 && Utf8Length("path") <= 16 && Utf8Length("schema_version") <= 56 && Utf8Length("track") <= 20
    ensures Utf8Length(Quoted("POST")) <= 24 && Utf8Length(Quoted("/consequential/admin")) <= 88
    ensures Utf8Length(Quoted("kil.v3b1-driver-instruction.v1")) <= 128 && Utf8Length(Quoted(TrackName(track))) <= 112
  {
    L.TrackIsPlain(track);
    QuotedLength("POST");
    QuotedLength("/consequential/admin");
    QuotedLength("kil.v3b1-driver-instruction.v1");
    QuotedLength(TrackName(track));
    hide Quoted;
    AsciiLength("body_byte_count");
    AsciiLength("0");
    AsciiLength("headers");
    AsciiLength("method");
    AsciiLength("path");
    AsciiLength("schema_version");
    AsciiLength("track");
    hide Utf8Length;
  }
}
