/**
 * The Python side of alpaca.py: the prompt templates, the request record,
 * and the `Alpaca` process manager, which talks to the engine one line at
 * a time over the engine's standard input and output.
 */
module Client {
  import opened Wrappers
  import opened Json
  import opened Request
  import opened Engine

  // ---------------------------------------------------------------------
  // Prompt templates
  // ---------------------------------------------------------------------

  const Header: string :=
    "Below is an instruction that describes a task. Write a response that appropriately completes the request.\n\n"
  const InstructionMark: string := "### Instruction:\n\n"
  const ResponseMark: string := "### Response:\n\n"
  const AdLead: string := "Write an ad text based one the given keywords: "

  /** wrap_with_default_prompt: the instruction template around `text`. */
  function DefaultPrompt(text: string): (r: string)
    ensures |r| == |Header| + |InstructionMark| + |text| + |ResponseMark|
  {
    Header + InstructionMark + text + ResponseMark
  }

  /** wrap_with_advertisement_prompt: the default template around the advertisement instruction. */
  function AdvertisementPrompt(text: string): string
  {
    DefaultPrompt(AdLead + text)
  }

  /** The instruction inside a prompt built from the default template, if it is one. */
  function Instruction(prompt: string): (r: Option<string>)
    ensures r.Some? ==> DefaultPrompt(r.value) == prompt
  {
    var n := |Header| + |InstructionMark|;
    if |prompt| >= n + |ResponseMark|
       && prompt[..n] == Header + InstructionMark
       && prompt[|prompt| - |ResponseMark|..] == ResponseMark
    then
      var text := prompt[n..|prompt| - |ResponseMark|];
      assert prompt == prompt[..n] + text + prompt[|prompt| - |ResponseMark|..];
      Some(text)
    else None
  }

  /** The template keeps the instruction whole: it can be read back from the prompt. */
  lemma InstructionOfDefault(text: string)
    ensures Instruction(DefaultPrompt(text)) == Some(text)
  {
    var p := DefaultPrompt(text);
    var n := |Header| + |InstructionMark|;
    assert p[..n] == Header + InstructionMark;
    assert p[|p| - |ResponseMark|..] == ResponseMark;
    assert p[n..|p| - |ResponseMark|] == text;
  }

  /** An advertisement prompt is the default template around the lead and the keywords. */
  lemma InstructionOfAdvertisement(text: string)
    ensures Instruction(AdvertisementPrompt(text)) == Some(AdLead + text)
  {
    InstructionOfDefault(AdLead + text);
  }

  // ---------------------------------------------------------------------
  // InferenceRequest
  // ---------------------------------------------------------------------

  /** The fields of InferenceRequest; the float fields as the reals they stand for. */
  datatype InferenceRequest = InferenceRequest(
    inputText: string,
    topK: int,
    topP: real,
    temp: real,
    repeatPenalty: real,
    repeatLastN: int,
    nPredict: int)

  /** A request with only `input_text` given: every other field takes its declared default. */
  function NewRequest(inputText: string): (r: InferenceRequest)
    ensures r.inputText == inputText
    ensures r.topK == 40 && r.repeatLastN == 64 && r.nPredict == 128
    ensures r.topP == 0.95 && r.temp == 0.1 && r.repeatPenalty == 1.3
  {
    InferenceRequest(inputText, 40, 0.95, 0.1, 1.3, 64, 128)
  }

  /** Every field but `input_text` is the same in both requests. */
  predicate SameSettings(a: InferenceRequest, b: InferenceRequest)
  {
    a.topK == b.topK && a.topP == b.topP && a.temp == b.temp
    && a.repeatPenalty == b.repeatPenalty && a.repeatLastN == b.repeatLastN && a.nPredict == b.nPredict
  }

  /** InferenceRequest.wrap_with_default_prompt: a copy whose input text is wrapped. */
  function WrapDefault(req: InferenceRequest): (r: InferenceRequest)
    ensures SameSettings(r, req)
    ensures Instruction(r.inputText) == Some(req.inputText)
  {
    InstructionOfDefault(req.inputText);
    req.(inputText := DefaultPrompt(req.inputText))
  }

  /** InferenceRequest.wrap_with_advertisement_prompt: a copy whose input text is wrapped. */
  function WrapAdvertisement(req: InferenceRequest): (r: InferenceRequest)
    ensures SameSettings(r, req)
    ensures Instruction(r.inputText) == Some(AdLead + req.inputText)
  {
    InstructionOfAdvertisement(req.inputText);
    req.(inputText := AdvertisementPrompt(req.inputText))
  }

  /**
   * `{k: str(v) for k, v in request.dict().items()}`, in the order the
   * fields are declared. `floatText` is Python's `str` on a float.
   */
  function RequestFields(req: InferenceRequest, floatText: real -> string): (r: seq<(string, string)>)
    ensures |r| == 7 && r[0] == ("input_text", req.inputText)
    ensures forall i :: 0 <= i < |r| ==> r[i].0 in Keys
  {
    [("input_text", req.inputText),
     ("top_k", IntText(req.topK)),
     ("top_p", floatText(req.topP)),
     ("temp", floatText(req.temp)),
     ("repeat_penalty", floatText(req.repeatPenalty)),
     ("repeat_last_n", IntText(req.repeatLastN)),
     ("n_predict", IntText(req.nPredict))]
  }

  /**
   * The integer fields the client sends are read back by the engine's
   * std::stoi as the same numbers, as long as they fit an int.
   */
  lemma IntFieldsReadBack(req: InferenceRequest, floatText: real -> string)
    ensures var r := RequestFields(req, floatText);
      && Stoi(r[1].1) == InRange(req.topK)
      && Stoi(r[5].1) == InRange(req.repeatLastN)
      && Stoi(r[6].1) == InRange(req.nPredict)
  {
    StoiIntText(req.topK, []);
    StoiIntText(req.repeatLastN, []);
    StoiIntText(req.nPredict, []);
    assert IntText(req.topK) + [] == IntText(req.topK);
    assert IntText(req.repeatLastN) + [] == IntText(req.repeatLastN);
    assert IntText(req.nPredict) + [] == IntText(req.nPredict);
  }

  // ---------------------------------------------------------------------
  // Python's str.strip and int
  // ---------------------------------------------------------------------

  /** The characters below U+0100 that Python's `str.isspace` accepts. */
  predicate PySpace(c: char)
  {
    c == ' ' || '\t' <= c <= '\r' || '\U{1C}' <= c <= '\U{1F}' || c == '\U{85}' || c == '\U{A0}'
  }

  /** `s.lstrip()`: `s` without its leading white space. */
  function TrimStart(s: string): (r: string)
    ensures |r| <= |s|
    ensures |r| == 0 || !PySpace(r[0])
  {
    if |s| > 0 && PySpace(s[0]) then TrimStart(s[1..]) else s
  }

  /** `s.rstrip()`: `s` without its trailing white space. */
  function TrimEnd(s: string): (r: string)
    ensures |r| <= |s|
    ensures |r| == 0 || !PySpace(r[|r| - 1])
  {
    if |s| > 0 && PySpace(s[|s| - 1]) then TrimEnd(s[..|s| - 1]) else s
  }

  /** `s.strip()`. */
  function Strip(s: string): (r: string)
  {
    TrimEnd(TrimStart(s))
  }

  /** lstrip keeps a suffix. */
  lemma {:induction false} TrimStartSuffix(s: string)
    ensures TrimStart(s) == s[|s| - |TrimStart(s)|..]
    decreases |s|
  {
    if |s| > 0 && PySpace(s[0]) {
      TrimStartSuffix(s[1..]);
    }
  }

  /** rstrip keeps a prefix. */
  lemma {:induction false} TrimEndPrefix(s: string)
    ensures TrimEnd(s) == s[..|TrimEnd(s)|]
    decreases |s|
  {
    if |s| > 0 && PySpace(s[|s| - 1]) {
      TrimEndPrefix(s[..|s| - 1]);
    }
  }

  /** lstrip cuts white space only. */
  lemma {:induction false} TrimStartCuts(s: string, i: nat)
    requires i < |s| - |TrimStart(s)|
    ensures PySpace(s[i])
    decreases i
  {
    if i > 0 {
      TrimStartCuts(s[1..], i - 1);
    }
  }

  /** rstrip cuts white space only. */
  lemma {:induction false} TrimEndCuts(s: string, i: nat)
    requires |TrimEnd(s)| <= i < |s|
    ensures PySpace(s[i])
    decreases |s| - i
  {
    if i < |s| - 1 {
      TrimEndCuts(s[..|s| - 1], i);
    }
  }

  /** Where strip's result starts in `s`. */
  function StripStart(s: string): (i: nat)
    ensures i + |Strip(s)| <= |s|
  {
    |s| - |TrimStart(s)|
  }

  /**
   * What strip leaves: the piece of `s` at StripStart(s), with no white
   * space at either end, and only white space cut from around it.
   */
  lemma StripTrims(s: string)
    ensures Strip(s) == s[StripStart(s)..StripStart(s) + |Strip(s)|]
    ensures |Strip(s)| == 0 || (!PySpace(Strip(s)[0]) && !PySpace(Strip(s)[|Strip(s)| - 1]))
    ensures forall j :: 0 <= j < StripStart(s) ==> PySpace(s[j])
    ensures forall j :: StripStart(s) + |Strip(s)| <= j < |s| ==> PySpace(s[j])
  {
    var t := TrimStart(s);
    var r := TrimEnd(t);
    var i := StripStart(s);
    TrimStartSuffix(s);
    TrimEndPrefix(t);
    assert t == s[i..];
    assert r == s[i..i + |r|];
    if |r| > 0 {
      assert r[0] == t[0];
    }
    forall j | 0 <= j < i ensures PySpace(s[j]) {
      TrimStartCuts(s, j);
    }
    forall j | i + |r| <= j < |s| ensures PySpace(s[j]) {
      TrimEndCuts(t, j - i);
      assert t[j - i] == s[j];
    }
  }

  /** Stripping twice is stripping once. */
  lemma StripIdempotent(s: string)
    ensures Strip(Strip(s)) == Strip(s)
  {
    StripTrims(s);
    var r := Strip(s);
    if |r| > 0 {
      assert TrimStart(r) == r;
    }
  }

  /** Stripping a text that starts and ends with no white space leaves it as it is. */
  lemma StripClean(s: string)
    requires |s| > 0 && !PySpace(s[0]) && !PySpace(s[|s| - 1])
    ensures Strip(s) == s
  {
    assert TrimStart(s) == s;
  }

  /** The digits of a decimal text are never white space. */
  lemma NatTextClean(n: nat)
    ensures var t := NatText(n); |t| > 0 && IsDigit(t[0]) && IsDigit(t[|t| - 1])
  {
    var t := NatText(n);
    DigitCountAll(t, 0);
    DigitCountAll(t, |t| - 1);
  }

  /** In a text made of digits only, every character is a digit. */
  lemma {:induction false} DigitCountAll(s: string, i: nat)
    requires DigitCount(s) == |s| && i < |s|
    ensures IsDigit(s[i])
    decreases i
  {
    if i > 0 {
      DigitCountAll(s[1..], i - 1);
    }
  }

  /** Python's `int` on a string: surrounding white space, an optional sign, then decimal digits only. */
  function PyInt(s: string): (r: Option<int>)
  {
    var t := Strip(s);
    if |t| > 0 && t[0] == '-' then
      (if |t| > 1 && DigitCount(t[1..]) == |t| - 1 then Some(-(DigitsValue(t[1..]) as int)) else None)
    else if |t| > 0 && t[0] == '+' then
      (if |t| > 1 && DigitCount(t[1..]) == |t| - 1 then Some(DigitsValue(t[1..])) else None)
    else if |t| > 0 && DigitCount(t) == |t| then Some(DigitsValue(t))
    else None
  }

  /** `int` reads back the decimal text of a number. */
  lemma PyIntNatText(n: nat)
    ensures PyInt(NatText(n)) == Some(n)
  {
    NatTextClean(n);
    StripClean(NatText(n));
    DigitsValueNatText(n);
  }

  /** Leading spaces are white space to `int`: the engine's `%8zu` field reads back too. */
  lemma PyIntPadded(n: nat)
    ensures PyInt(Padded8(n)) == Some(n)
  {
    StripPadded(n);
    NatTextClean(n);
    StripClean(NatText(n));
    PyIntStrip(Padded8(n), NatText(n));
    PyIntNatText(n);
  }

  /** Stripping the `%8zu` field leaves the digits. */
  lemma StripPadded(n: nat)
    ensures Strip(Padded8(n)) == NatText(n)
  {
    var t := NatText(n);
    NatTextClean(n);
    StripClean(t);
    if |t| < 8 {
      TrimStartSpaces(8 - |t|, t);
      assert TrimStart(t) == t;
    }
  }

  /** `int` looks at the stripped text only. */
  lemma PyIntStrip(a: string, b: string)
    requires Strip(a) == Strip(b)
    ensures PyInt(a) == PyInt(b)
  {
  }

  /** `lstrip` removes any run of leading spaces. */
  lemma {:induction false} TrimStartSpaces(k: nat, t: string)
    ensures TrimStart(Spaces(k) + t) == TrimStart(t)
    decreases k
  {
    if k > 0 {
      assert (Spaces(k) + t)[0] == ' ';
      assert (Spaces(k) + t)[1..] == Spaces(k - 1) + t;
      TrimStartSpaces(k - 1, t);
    } else {
      assert Spaces(k) + t == t;
    }
  }

  /** The engine's "true" and "false" are not numbers to `int`. */
  lemma PyIntRejectsWords()
    ensures PyInt("true") == None && PyInt("false") == None
  {
    PyIntRejectsWord("true");
    PyIntRejectsWord("false");
  }

  /** A word that starts with a letter and ends with no white space is not a number. */
  lemma PyIntRejectsWord(w: string)
    requires |w| > 0 && 'a' <= w[0] <= 'z' && 'a' <= w[|w| - 1] <= 'z'
    ensures PyInt(w) == None
  {
    StripClean(w);
  }

  // ---------------------------------------------------------------------
  // Decoding the engine's replies
  // ---------------------------------------------------------------------

  /** A value of the dict `run` returns. */
  datatype PyValue = Str(s: string) | Int(i: int)

  /** How `run` ends. */
  datatype RunResult =
    | Returned(output: map<string, PyValue>)
    | EngineError(message: string)   // the reply had an "error" key: `raise Exception(message)`
    | DecodeError                    // json.loads raised
    | ValueError                     // `int(v)` raised on some value

  /** `json.loads` on a line whose object has only string values; `None` is the exception it raises. */
  type Loads = string -> Option<map<string, string>>

  /** `{k: int(v) for k, v in info.items()}` on the start-up line, or `None` when it raises. */
  function SystemInfo(line: string, loads: Loads): (r: Option<map<string, int>>)
    ensures r.Some? <==> loads(line).Some? && forall k :: k in loads(line).value ==> PyInt(loads(line).value[k]).Some?
    ensures r.Some? ==> forall k :: k in r.value <==> k in loads(line).value
  {
    match loads(line)
    case None => None
    case Some(info) =>
      if forall k :: k in info ==> PyInt(info[k]).Some? then
        Some(map k | k in info :: PyInt(info[k]).value)
      else None
  }

  /** A start-up line of decimal numbers is read as those numbers, under the same keys. */
  lemma SystemInfoDecimal(line: string, loads: Loads, values: map<string, nat>)
    requires loads(line).Some? && loads(line).value.Keys == values.Keys
    requires forall k :: k in values ==> loads(line).value[k] == NatText(values[k])
    ensures SystemInfo(line, loads).Some?
    ensures forall k :: k in SystemInfo(line, loads).value <==> k in values
    ensures forall k :: k in values ==> SystemInfo(line, loads).value[k] == values[k]
  {
    var info := loads(line).value;
    forall k | k in info ensures PyInt(info[k]) == Some(values[k] as int) {
      PyIntNatText(values[k]);
    }
  }

  /** The body of `run` after its read: decode the reply, raise on "error", convert to int all but "output". */
  function ConvertResponse(response: string, loads: Loads): RunResult
  {
    match loads(response)
    case None => DecodeError
    case Some(output) =>
      if "error" in output then EngineError(output["error"])
      else if forall k :: k in output && k != "output" ==> PyInt(output[k]).Some? then
        Returned(map k | k in output :: if k == "output" then Str(output[k]) else Int(PyInt(output[k]).value))
      else ValueError
  }

  /**
   * What `run` returns: the reply's keys, "output" as text and every other
   * value as the number `int` reads from it; an "error" key raises with its
   * message, and so does a value `int` cannot read.
   */
  lemma ConvertCases(response: string, loads: Loads)
    ensures var r := ConvertResponse(response, loads);
      && (r.DecodeError? <==> loads(response).None?)
      && (r.EngineError? <==> loads(response).Some? && "error" in loads(response).value)
      && (r.EngineError? ==> r.message == loads(response).value["error"])
      && (r.Returned? ==>
            var m := loads(response).value;
            && "error" !in m
            && (forall k :: k in r.output <==> k in m)
            && ("output" in m ==> r.output["output"] == Str(m["output"]))
            && (forall k :: k in m && k != "output" ==> r.output[k] == Int(PyInt(m[k]).value)))
      && (r.ValueError? ==>
            var m := loads(response).value;
            "error" !in m && exists k :: k in m && k != "output" && PyInt(m[k]).None?)
  {
  }

  /** A reply with a value `int` cannot read, other than "output", makes `run` raise ValueError. */
  lemma UnreadableValue(response: string, loads: Loads, k: string)
    requires loads(response).Some? && "error" !in loads(response).value
    requires k in loads(response).value && k != "output" && PyInt(loads(response).value[k]).None?
    ensures ConvertResponse(response, loads) == ValueError
  {
  }

  /**
   * Every answer the engine gives to a request carries "true" or "false" in
   * reached_max_content_size, which `int` cannot read: if `json.loads`
   * decodes the engine's object faithfully, `run` raises ValueError.
   */
  lemma EngineReplyRaises(reply: Dict, response: string, loads: Loads,
                          text: string, nPast: nat, nCtx: nat, memPerToken: nat, micros: nat, truncated: nat)
    requires reply == OutputMap(text, nPast, nCtx, memPerToken, micros, truncated)
    requires loads(response) == Some(ToMap(reply))
    ensures ConvertResponse(response, loads) == ValueError
  {
    var m := ToMap(reply);
    var key := "reached_max_content_size";
    PyIntRejectsWords();
    ReachedMax(text, nPast, nCtx, memPerToken, micros, truncated);
    NoErrorKey(text, nPast, nCtx, memPerToken, micros, truncated);
    assert PyInt(m[key]).None?;
    UnreadableValue(response, loads, key);
  }

  // ---------------------------------------------------------------------
  // The process manager
  // ---------------------------------------------------------------------

  /**
   * The engine process as the client sees it: the lines written to its
   * standard input, and the lines it has written to its standard output
   * that the client has not read yet.
   */
  datatype Pipe = Pipe(sent: seq<string>, pending: seq<string>)

  /** What `readline().strip()` returns: the next line stripped, or "" at end of file. */
  function NextLine(p: Pipe): string
  {
    if |p.pending| == 0 then "" else Strip(p.pending[0])
  }

  /** The pipe after one `readline()`. */
  function AfterRead(p: Pipe): (r: Pipe)
    ensures r.sent == p.sent
    ensures |p.pending| > 0 ==> p.pending == [p.pending[0]] + r.pending
    ensures |p.pending| == 0 ==> r.pending == []
  {
    if |p.pending| == 0 then p else p.(pending := p.pending[1..])
  }

  /** The line `_write(message)` sends: the message stripped, then one newline. */
  function Framed(message: string): (r: string)
    ensures |r| > 0 && r[|r| - 1] == '\n' && r[..|r| - 1] == Strip(message)
  {
    Strip(message) + "\n"
  }

  /** The line `stop` sends. */
  lemma QuitLine()
    ensures Framed("quit();") == "quit();\n"
  {
    StripClean("quit();");
  }

  class Alpaca {
    var process: Option<Pipe>
    var systemInfo: Option<map<string, int>>

    /**
     * __init__: no process and no information, then `start`. `spawned`
     * is the pipe of the process start would launch; `raised` says the
     * start-up exception propagated out of the constructor.
     */
    constructor (spawned: Pipe, loads: Loads)
      ensures process == Some(AfterRead(spawned))
      ensures systemInfo == SystemInfo(NextLine(spawned), loads)
    {
      process := None;
      systemInfo := None;
      new;
      var ok := Start(spawned, loads);
    }

    /**
     * start: nothing when a process exists; otherwise launch it, read one
     * line and keep it, converted to int, as the system information.
     * `ok` is false when json.loads or int raised: the process is then
     * running but the information is not set.
     */
    method Start(spawned: Pipe, loads: Loads) returns (ok: bool)
      modifies this
      ensures old(process).Some? ==> process == old(process) && systemInfo == old(systemInfo) && ok
      ensures old(process).None? ==>
        && process == Some(AfterRead(spawned))
        && ok == SystemInfo(NextLine(spawned), loads).Some?
        && systemInfo == (if ok then SystemInfo(NextLine(spawned), loads) else old(systemInfo))
    {
      if process.Some? {
        return true;
      }
      process := Some(spawned);
      var infoStr := ReadStdout();
      var info := SystemInfo(infoStr, loads);
      if info.None? {
        return false;
      }
      systemInfo := info;
      ok := true;
    }

    /** _write: send the stripped message and a newline. */
    method Write(message: string)
      requires process.Some?
      modifies this
      ensures process == Some(old(process.value).(sent := old(process.value.sent) + [Framed(message)]))
      ensures systemInfo == old(systemInfo)
    {
      process := Some(process.value.(sent := process.value.sent + [Framed(message)]));
    }

    /** _read_stdout: the next line, stripped; "" at end of file. */
    method ReadStdout() returns (line: string)
      requires process.Some?
      modifies this
      ensures line == NextLine(old(process.value))
      ensures process == Some(AfterRead(old(process.value)))
      ensures systemInfo == old(systemInfo)
    {
      var p := process.value;
      line := NextLine(p);
      process := Some(AfterRead(p));
    }

    /**
     * stop: send `quit();`, wait for the process, forget it. `exits` is
     * whether the process ends within the ten seconds `wait` allows; when
     * it does not, `wait` raises and the process is kept. `closed` is the
     * pipe after the write.
     */
    method Stop(exits: bool) returns (closed: Pipe, raised: bool)
      requires process.Some?
      modifies this
      ensures closed == old(process.value).(sent := old(process.value.sent) + [Framed("quit();")])
      ensures raised == !exits
      ensures process == (if exits then None else Some(closed))
      ensures systemInfo == old(systemInfo)
    {
      Write("quit();");
      closed := process.value;
      if !exits {
        return closed, true;
      }
      process := None;
      raised := false;
    }

    /**
     * run: send the request's fields as one JSON line, read one line back
     * and convert it. `dumps` is json.dumps on the fields in their order.
     */
    method Run(req: InferenceRequest, floatText: real -> string, dumps: seq<(string, string)> -> string, loads: Loads)
      returns (r: RunResult)
      requires process.Some?
      modifies this
      ensures var sentLine := Framed(dumps(RequestFields(req, floatText)));
        var written := old(process.value).(sent := old(process.value.sent) + [sentLine]);
        && process == Some(AfterRead(written))
        && r == ConvertResponse(NextLine(written), loads)
      ensures systemInfo == old(systemInfo)
    {
      var input := RequestFields(req, floatText);
      Write(dumps(input));
      var response := ReadStdout();
      r := ConvertResponse(response, loads);
    }

    /** run_simple: `run` on the request wrapped in the default template. */
    method RunSimple(req: InferenceRequest, floatText: real -> string, dumps: seq<(string, string)> -> string, loads: Loads)
      returns (r: RunResult)
      requires process.Some?
      modifies this
      ensures var sentLine := Framed(dumps(RequestFields(WrapDefault(req), floatText)));
        var written := old(process.value).(sent := old(process.value.sent) + [sentLine]);
        && process == Some(AfterRead(written))
        && r == ConvertResponse(NextLine(written), loads)
      ensures systemInfo == old(systemInfo)
    {
      r := Run(WrapDefault(req), floatText, dumps, loads);
    }
  }
}
