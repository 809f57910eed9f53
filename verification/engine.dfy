/**
 * One pass of the engine's main loop in cpp/alpaca.cpp, and the loop over
 * the lines of standard input: read a request, truncate its prompt,
 * evaluate it, generate, and write the output map or an error line.
 */
module Engine {
  import opened Wrappers
  import opened Json
  import opened Request
  import opened Generation

  /** What main knows of the loaded model: n_ctx and the memory per token measured at start-up. */
  datatype Model = Model(nCtx: nat, memPerToken: nat)

  /** `k` spaces. */
  function Spaces(k: nat): (r: string)
    ensures |r| == k && forall i :: 0 <= i < k ==> r[i] == ' '
  {
    if k == 0 then [] else Spaces(k - 1) + [' ']
  }

  /** `%8zu`: the decimal digits, right-aligned in a field of eight. */
  function Padded8(n: nat): (r: string)
    ensures |r| >= 8
  {
    var t := NatText(n);
    if |t| < 8 then Spaces(8 - |t|) + t else t
  }

  /** The output map main fills for a finished request. */
  function OutputMap(text: string, nPast: nat, nCtx: nat, memPerToken: nat, micros: nat, truncated: nat): (d: Dict)
    ensures ToMap(d) == map[
      "output" := text,
      "reached_max_content_size" := if nPast == nCtx then "true" else "false",
      "memory_per_token_bytes" := Padded8(memPerToken),
      "total_predict_time_us" := NatText(micros),
      "total_token_length" := NatText(nPast),
      "n_tokens_truncated" := NatText(truncated)]
  {
    var d1 := Insert([], "output", text);
    var d2 := Insert(d1, "reached_max_content_size", if nPast == nCtx then "true" else "false");
    var d3 := Insert(d2, "memory_per_token_bytes", Padded8(memPerToken));
    var d4 := Insert(d3, "total_predict_time_us", NatText(micros));
    var d5 := Insert(d4, "total_token_length", NatText(nPast));
    var d6 := Insert(d5, "n_tokens_truncated", NatText(truncated));
    d6
  }

  /**
   * What `%s` prints of a C string: the text before its first NUL, that is
   * the longest prefix holding none.
   */
  function CText(s: string): (r: string)
    ensures r <= s && '\0' !in r
    ensures |r| < |s| ==> s[|r|] == '\0'
  {
    if |s| == 0 || s[0] == '\0' then [] else [s[0]] + CText(s[1..])
  }

  /**
   * The line main writes for a finished request: the map's text as `%s`
   * prints it, and a newline.
   */
  function ReplyLine(d: Dict): string
  {
    CText(EncodeDict(d)) + ['\n']
  }

  /**
   * The whole object is written exactly when no key or value holds a NUL;
   * a generated piece with a NUL cuts the line short at it.
   */
  lemma ReplyWhole(d: Dict)
    ensures ReplyLine(d) == EncodeDict(d) + ['\n'] <==> !HoldsNul(d)
  {
    var t := EncodeDict(d);
    EncodeEntriesNul(d);
    assert '\0' in t <==> '\0' in EncodeEntries(d);
    if '\0' in t {
      assert CText(t) != t;
    }
  }

  /** write_error: the message between fixed text, not escaped. */
  function ErrorLine(message: string): string
  {
    "{ \"error\": \"" + message + "\" }\n"
  }

  /** One line on standard output: a newline at the end and nowhere else. */
  predicate OneLine(l: string)
  {
    |l| > 0 && l[|l| - 1] == '\n' && '\n' !in l[..|l| - 1]
  }

  lemma ReplyIsOneLine(d: Dict)
    ensures OneLine(ReplyLine(d))
  {
    var l, t := ReplyLine(d), EncodeDict(d);
    assert l[..|l| - 1] == CText(t);
    assert forall i :: 0 <= i < |CText(t)| ==> CText(t)[i] == t[i];
  }

  lemma ErrorIsOneLine(message: string)
    requires '\n' !in message
    ensures OneLine(ErrorLine(message))
  {
    var l := ErrorLine(message);
    assert l[..|l| - 1] == "{ \"error\": \"" + message + "\" }";
  }

  /** For a message that needs no escaping, write_error's text is the writer's quoting of it. */
  lemma ErrorLineQuoted(message: string)
    requires Escape(message) == message
    ensures ErrorLine(message) == "{ " + Quote("error") + ": " + Quote(message) + " }\n"
  {
    var x, y := "{ " + Quote("error") + ": ", " }\n";
    ErrorTextHead();
    assert "\" }\n" == "\"" + y;
    Assoc3(x, "\"", message, "\"", y);
  }

  /** The fixed text before the message: the quoted key and the value's opening quote. */
  lemma ErrorTextHead()
    ensures "{ \"error\": \"" == "{ " + Quote("error") + ": " + "\""
  {
    CopiedRaw("error");
    assert Quote("error") == "\"error\"";
  }

  lemma Assoc3(x: string, a: string, b: string, c: string, y: string)
    ensures x + a + b + (c + y) == x + (a + b + c) + y
  {
  }

  /**
   * An error line is read back by the JSON reader as the map whose only key
   * is `error`, bound to the message, when the message needs no escaping.
   */
  lemma ErrorLineReadBack(message: string)
    requires Escape(message) == message
    ensures var p := ParseDict(ErrorLine(message), []);
      p.ok && ToMap(p.dict) == map["error" := message]
  {
    ErrorLineQuoted(message);
    var t := ErrorLine(message);
    var q1, q2 := Quote("error"), Quote(message);
    SpacedEntryParts(t, "{ ", q1, ": ", q2, " }\n");
    AtSplit(t, 4 + |q1| + |q2|, " }", "\n");
    SpacedEntryRead(t, "error", message);
    assert ToMap([]) == map[];
  }

  // ---------------------------------------------------------------------
  // One request
  // ---------------------------------------------------------------------

  /** How one pass of main's loop ends. */
  datatype Outcome =
    | Continue(out: seq<string>)  // the loop goes on to the next line, having written `out`
    | Quit                        // `exit();` or `quit();`: main returns 0
    | Exit(out: seq<string>)      // the prompt failed to evaluate: main writes `out` and returns 1
    | Crash                       // an exception nothing catches ends the process

  /**
   * One pass of main's loop on a line, from a fresh copy of the global
   * settings. A negative `repeat_last_n` makes the window's constructor
   * throw (its size converts to a huge size_t).
   */
  function Respond(line: string, global: Params, m: Model, llama: Llama, stof: Stof): Outcome
  {
    var r := ReadInputSpec(line, [], global, stof, llama.tokenize);
    match r.state
    case Stop => Quit
    case Aborted => Crash
    case Error => Continue(if r.params.verbose then [ErrorLine("Invalid arguments")] else [])
    case Success => Answer(r.input, r.params, m, llama)
  }

  /** The rest of the pass once a request is read: truncate, evaluate, generate, answer. */
  function Answer(input: seq<Token>, p: Params, m: Model, llama: Llama): Outcome
  {
    var k := TruncCount(|input|, p.nPredict, m.nCtx);
    var prompt := input[k..];
    if |prompt| > m.nCtx then Continue([ErrorLine("Input exceeds maximal context length")])
    else if !llama.eval(prompt) then Exit([ErrorLine("Inference error")])
    else if p.repeatLastN < 0 then Crash
    else match GenLoop(llama, p, m.nCtx, prompt, [], Zeros(p.repeatLastN))
      case EvalFailed => Continue([ErrorLine("Inference error")])
      case Generated(ids, ctx, _) =>
        Continue([ReplyLine(OutputMap(Pieces(llama.piece, ids), |ctx|, m.nCtx, m.memPerToken, llama.micros(ctx), k))])
  }

  /** One pass of main's loop. */
  method HandleLine(line: string, global: Params, m: Model, llama: Llama, stof: Stof) returns (o: Outcome)
    ensures o == Respond(line, global, m, llama, stof)
  {
    var params := global;
    var r := ReadInput(line, [], params, stof, llama.tokenize);
    if r.state == Stop {
      return Quit;
    }
    if r.state == Aborted {
      return Crash;
    }
    if r.state == Error {
      if r.params.verbose {
        return Continue([ErrorLine("Invalid arguments")]);
      }
      return Continue([]);
    }
    o := AnswerRequest(r.input, r.params, m, llama);
  }

  /** The rest of one pass of main's loop, on a request read successfully. */
  method AnswerRequest(input: seq<Token>, params: Params, m: Model, llama: Llama) returns (o: Outcome)
    ensures o == Answer(input, params, m, llama)
  {
    var embd, truncated := Truncate(input, params.nPredict, m.nCtx);
    if |embd| > m.nCtx {
      return Continue([ErrorLine("Input exceeds maximal context length")]);
    }
    if !llama.eval(embd) {
      return Exit([ErrorLine("Inference error")]);
    }
    if params.repeatLastN < 0 {
      return Crash;
    }
    var g, text := Generate(llama, params, m.nCtx, embd, params.repeatLastN);
    if g.EvalFailed? {
      return Continue([ErrorLine("Inference error")]);
    }
    var output := OutputMap(text, |g.ctx|, m.nCtx, m.memPerToken, llama.micros(g.ctx), truncated);
    return Continue([ReplyLine(output)]);
  }

  /** What an outcome writes to standard output. */
  function Written(o: Outcome): seq<string>
  {
    if o.Continue? || o.Exit? then o.out else []
  }

  /** Everything main writes is whole lines: each ends in its only newline. */
  lemma RespondWritesLines(line: string, global: Params, m: Model, llama: Llama, stof: Stof)
    ensures forall l :: l in Written(Respond(line, global, m, llama, stof)) ==> OneLine(l)
  {
    ErrorIsOneLine("Invalid arguments");
    var r := ReadInputSpec(line, [], global, stof, llama.tokenize);
    if r.state == Success {
      AnswerWritesLines(r.input, r.params, m, llama);
    }
  }

  lemma AnswerWritesLines(input: seq<Token>, p: Params, m: Model, llama: Llama)
    ensures forall l :: l in Written(Answer(input, p, m, llama)) ==> OneLine(l)
  {
    ErrorIsOneLine("Input exceeds maximal context length");
    ErrorIsOneLine("Inference error");
    var k := TruncCount(|input|, p.nPredict, m.nCtx);
    if p.repeatLastN >= 0 {
      var g := GenLoop(llama, p, m.nCtx, input[k..], [], Zeros(p.repeatLastN));
      if g.Generated? {
        ReplyIsOneLine(OutputMap(Pieces(llama.piece, g.ids), |g.ctx|, m.nCtx, m.memPerToken, llama.micros(g.ctx), k));
      }
    }
  }

  /** An invalid request is answered with an error line only in verbose mode. */
  lemma InvalidRequest(line: string, global: Params, m: Model, llama: Llama, stof: Stof)
    requires ReadInputSpec(line, [], global, stof, llama.tokenize).state == Error
    ensures Respond(line, global, m, llama, stof) ==
      Continue(if global.verbose then [ErrorLine("Invalid arguments")] else [])
  {
    if |line| > 0 && line != "exit();" && line != "quit();" && ParseDict(line, []).ok {
      ParsedLine(line, [], global, stof, llama.tokenize);
    }
  }

  /** A request that reaches generation is answered with its output map and nothing else. */
  lemma AnsweredRequest(line: string, global: Params, m: Model, llama: Llama, stof: Stof,
                        r: ReadResult, k: nat, g: GenResult)
    requires r == ReadInputSpec(line, [], global, stof, llama.tokenize) && r.state == Success
    requires k == TruncCount(|r.input|, r.params.nPredict, m.nCtx) && |r.input| - k <= m.nCtx
    requires llama.eval(r.input[k..]) && r.params.repeatLastN >= 0
    requires g == GenLoop(llama, r.params, m.nCtx, r.input[k..], [], Zeros(r.params.repeatLastN))
    requires g.Generated?
    ensures Respond(line, global, m, llama, stof) ==
      Continue([ReplyLine(OutputMap(Pieces(llama.piece, g.ids), |g.ctx|, m.nCtx, m.memPerToken, llama.micros(g.ctx), k))])
  {
  }

  /**
   * How a generation that produced an answer ended: its context starts
   * with the prompt and fits `n_ctx`; no evaluated id was 2 or brought the
   * number of outputs up to `n_predict`; and unless the context is full,
   * the last sampled id, the one not evaluated, was 2 or did.
   */
  lemma GenerationEnd(llama: Llama, p: Params, nCtx: nat, prompt: seq<Token>, n: nat, g: GenResult)
    requires |prompt| <= nCtx
    requires g == GenLoop(llama, p, nCtx, prompt, [], Zeros(n)) && g.Generated?
    ensures prompt <= g.ctx && |g.ctx| <= nCtx && |g.ctx| - |prompt| <= |g.ids|
    ensures forall j :: 0 <= j < |g.ctx| - |prompt| ==> g.ids[j] != Eos && j + 1 < SizeT(p.nPredict)
    ensures |g.ctx| < nCtx ==> |g.ids| > 0 && (g.ids[|g.ids| - 1] == Eos || |g.ids| >= SizeT(p.nPredict))
  {
    GenContext(llama, p, nCtx, prompt, [], Zeros(n));
    GenStop(llama, p, nCtx, prompt, [], Zeros(n));
    var none: seq<Token> := [];
    GenFirstStop(llama, p, nCtx, prompt, none, Zeros(n));
    forall j | 0 <= j < |g.ctx| - |prompt|
      ensures g.ids[j] != Eos && j + 1 < SizeT(p.nPredict)
    {
      assert |none| <= j < |none| + |g.ctx| - |prompt|;
    }
  }

  /** `reached_max_content_size` is "true" exactly when the context is full, and "false" otherwise. */
  lemma ReachedMax(text: string, nPast: nat, nCtx: nat, memPerToken: nat, micros: nat, truncated: nat)
    ensures var d := ToMap(OutputMap(text, nPast, nCtx, memPerToken, micros, truncated));
      && "reached_max_content_size" in d
      && (d["reached_max_content_size"] == "true" <==> nPast == nCtx)
      && (d["reached_max_content_size"] == "false" <==> nPast != nCtx)
  {
  }

  /** The output map never has an "error" key: a reply and an error line are told apart by it. */
  lemma NoErrorKey(text: string, nPast: nat, nCtx: nat, memPerToken: nat, micros: nat, truncated: nat)
    ensures "error" !in ToMap(OutputMap(text, nPast, nCtx, memPerToken, micros, truncated))
  {
  }

  // ---------------------------------------------------------------------
  // The loop over standard input
  // ---------------------------------------------------------------------

  /** How the process stands once the given lines are consumed. */
  datatype Status = Stopped(code: int) | Crashed | Waiting

  /** Everything written, and how the process stands. */
  datatype Transcript = Transcript(written: seq<string>, status: Status)

  /**
   * The pass of main's loop as a function of the line alone: every pass
   * starts again from the same global settings, model and library.
   */
  function Responder(global: Params, m: Model, llama: Llama, stof: Stof): string -> Outcome
  {
    line => Respond(line, global, m, llama, stof)
  }

  /** main's loop over the lines of standard input, each answered by `respond`. */
  function Run(lines: seq<string>, respond: string -> Outcome): Transcript
    decreases |lines|
  {
    if |lines| == 0 then Transcript([], Waiting)
    else Then(respond(lines[0]), Run(lines[1..], respond))
  }

  /** How the loop stands after one pass ending in `o`, when the rest of the input gives `rest`. */
  function Then(o: Outcome, rest: Transcript): Transcript
  {
    match o
    case Continue(out) => Transcript(out + rest.written, rest.status)
    case Quit => Transcript([], Stopped(0))
    case Exit(out) => Transcript(out, Stopped(1))
    case Crash => Transcript([], Crashed)
  }

  /** Unrolls one pass: the lines from `i` on give the outcome of line `i`, then the rest. */
  lemma RunStep(lines: seq<string>, i: nat, respond: string -> Outcome, o: Outcome)
    requires i < |lines| && respond(lines[i]) == o
    ensures Run(lines[i..], respond) == Then(o, Run(lines[i + 1..], respond))
  {
    assert lines[i..][1..] == lines[i + 1..];
  }

  /** main's `while (true)` loop, over the lines available on standard input. */
  method RunEngine(lines: seq<string>, global: Params, m: Model, llama: Llama, stof: Stof)
    returns (written: seq<string>, status: Status)
    ensures Transcript(written, status) == Run(lines, Responder(global, m, llama, stof))
  {
    ghost var respond := Responder(global, m, llama, stof);
    ghost var whole := Run(lines, respond);
    written := [];
    var i := 0;
    assert lines[i..] == lines;
    while i < |lines|
      invariant i <= |lines|
      invariant whole == var t := Run(lines[i..], respond); Transcript(written + t.written, t.status)
      decreases |lines| - i
    {
      var o := HandleLine(lines[i], global, m, llama, stof);
      assert respond(lines[i]) == o;
      RunStep(lines, i, respond, o);
      if !o.Continue? {
        written := written + Written(o);
        status := if o.Quit? then Stopped(0) else if o.Exit? then Stopped(1) else Crashed;
        return;
      }
      written := written + o.out;
      i := i + 1;
    }
    status := Waiting;
  }

  /**
   * No request's settings carry over: after lines that each let the loop go
   * on, the rest of the input is answered exactly as if it came first.
   */
  lemma {:induction false} NoCarryOver(before: seq<string>, after: seq<string>, respond: string -> Outcome)
    requires forall l :: l in before ==> respond(l).Continue?
    ensures Run(before + after, respond).status == Run(after, respond).status
    ensures Run(before + after, respond).written == Run(before, respond).written + Run(after, respond).written
    decreases |before|
  {
    if |before| == 0 {
      assert before + after == after;
    } else {
      assert (before + after)[0] == before[0];
      assert (before + after)[1..] == before[1..] + after;
      NoCarryOver(before[1..], after, respond);
    }
  }
}
