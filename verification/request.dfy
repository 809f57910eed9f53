/**
 * The engine's request line: `read_input` in cpp/alpaca.cpp. A line is the
 * quit sentinel, or a flat JSON object whose keys select generation settings;
 * `std::stoi` is modelled exactly, `std::stof` and the tokenizer are
 * parameters.
 */
module Request {
  import opened Wrappers
  import opened Json

  /** A vocabulary id (`gpt_vocab::id`, a 32-bit int). */
  type Token = int

  const IntMin: int := -0x8000_0000
  const IntMax: int := 0x7FFF_FFFF

  // ---------------------------------------------------------------------
  // std::stoi: strtol in base 10, then a range check against int
  // ---------------------------------------------------------------------

  /** The characters `isspace` accepts in the C locale. */
  predicate IsSpace(c: char)
  {
    c == ' ' || c == '\t' || c == '\n' || c == '\U{B}' || c == '\U{C}' || c == '\r'
  }

  predicate IsDigit(c: char)
  {
    '0' <= c <= '9'
  }

  /** The number of leading white-space characters. */
  function SpaceCount(s: string): (n: nat)
    ensures n <= |s|
  {
    if |s| > 0 && IsSpace(s[0]) then 1 + SpaceCount(s[1..]) else 0
  }

  /** The number of leading decimal digits. */
  function DigitCount(s: string): (n: nat)
    ensures n <= |s|
  {
    if |s| > 0 && IsDigit(s[0]) then 1 + DigitCount(s[1..]) else 0
  }

  /** The value of a run of digits, most significant first. */
  function DigitsValue(ds: string): nat
  {
    if |ds| == 0 then 0
    else 10 * DigitsValue(ds[..|ds| - 1]) + (ds[|ds| - 1] as int - '0' as int) % 10
  }

  /**
   * std::stoi: optional white space, an optional sign, then at least one
   * digit; anything after the digits is ignored. `None` is the exception
   * std::stoi throws: no digits (invalid_argument) or a value outside the
   * range of int (out_of_range).
   */
  function Stoi(s: string): (r: Option<int>)
    ensures r.Some? ==> IntMin <= r.value <= IntMax
  {
    Signed(s[SpaceCount(s)..])
  }

  /** The conversion after the leading white space: an optional sign, then digits. */
  function Signed(t: string): (r: Option<int>)
    ensures r.Some? ==> IntMin <= r.value <= IntMax
  {
    if |t| > 0 && t[0] == '-' then
      (match Magnitude(t[1..]) case None => None case Some(m) => InRange(-(m as int)))
    else if |t| > 0 && t[0] == '+' then
      (match Magnitude(t[1..]) case None => None case Some(m) => InRange(m))
    else
      (match Magnitude(t) case None => None case Some(m) => InRange(m))
  }

  /** The value of the leading digits, or `None` when there are none. */
  function Magnitude(u: string): Option<nat>
  {
    var n := DigitCount(u);
    if n == 0 then None else Some(DigitsValue(u[..n]))
  }

  /** A converted value, or the out_of_range exception when it does not fit an int. */
  function InRange(v: int): (r: Option<int>)
    ensures r.Some? ==> IntMin <= r.value <= IntMax
  {
    if IntMin <= v <= IntMax then Some(v) else None
  }

  /** The decimal digits of `n`, as `%lu` or Python's `str` print it. */
  function NatText(n: nat): (r: string)
    ensures |r| > 0 && DigitCount(r) == |r|
  {
    if n < 10 then [(n + '0' as int) as char]
    else
      var d := [(n % 10 + '0' as int) as char];
      DigitsAppend(NatText(n / 10), d);
      NatText(n / 10) + d
  }

  /** The decimal text of an int, with a minus sign when negative. */
  function IntText(n: int): string
  {
    if n < 0 then ['-'] + NatText(-n) else NatText(n)
  }

  lemma {:induction false} DigitsValueNatText(n: nat)
    ensures DigitsValue(NatText(n)) == n
  {
    var r := NatText(n);
    if n >= 10 {
      DigitsValueNatText(n / 10);
      assert r[..|r| - 1] == NatText(n / 10);
    }
  }

  /** Digits followed by anything: the digit count runs on into what follows. */
  lemma {:induction false} DigitsAppend(a: string, b: string)
    requires DigitCount(a) == |a|
    ensures DigitCount(a + b) == |a| + DigitCount(b)
    decreases |a|
  {
    if |a| == 0 {
      assert a + b == b;
    } else {
      assert (a + b)[0] == a[0] && (a + b)[1..] == a[1..] + b;
      DigitsAppend(a[1..], b);
    }
  }

  lemma MagnitudeRun(digits: string, rest: string)
    requires |digits| > 0 && DigitCount(digits) == |digits|
    requires DigitCount(rest) == 0
    ensures Magnitude(digits + rest) == Some(DigitsValue(digits))
  {
    DigitsAppend(digits, rest);
    assert (digits + rest)[..|digits|] == digits;
  }

  /** std::stoi on a run of digits followed by something else. */
  lemma StoiUnsigned(digits: string, rest: string)
    requires |digits| > 0 && DigitCount(digits) == |digits|
    requires DigitCount(rest) == 0
    ensures Stoi(digits + rest) == InRange(DigitsValue(digits))
  {
    var s := digits + rest;
    assert s[0] == digits[0];
    assert SpaceCount(s) == 0;
    assert s[0..] == s;
    MagnitudeRun(digits, rest);
  }

  /** std::stoi on a minus sign, a run of digits and something else. */
  lemma StoiNegative(digits: string, rest: string)
    requires |digits| > 0 && DigitCount(digits) == |digits|
    requires DigitCount(rest) == 0
    ensures Stoi(['-'] + digits + rest) == InRange(-(DigitsValue(digits) as int))
  {
    var s := ['-'] + digits + rest;
    assert s[0] == '-';
    assert SpaceCount(s) == 0;
    assert s[0..] == s;
    Assoc(['-'], digits, rest);
    DropHead('-', digits + rest);
    MagnitudeRun(digits, rest);
    SignedMinus(s, DigitsValue(digits));
  }

  lemma SignedMinus(t: string, m: nat)
    requires |t| > 0 && t[0] == '-' && Magnitude(t[1..]) == Some(m)
    ensures Signed(t) == InRange(-(m as int))
  {
  }

  lemma DropHead<T>(c: T, x: seq<T>)
    ensures ([c] + x)[1..] == x
  {
  }

  /**
   * std::stoi reads back the decimal text of every int, whatever follows it
   * as long as that does not start with a digit; the text of a number
   * outside the range of int makes it throw.
   */
  lemma StoiIntText(n: int, rest: string)
    requires DigitCount(rest) == 0
    ensures Stoi(IntText(n) + rest) == InRange(n)
  {
    if n < 0 {
      DigitsValueNatText(-n);
      StoiNegative(NatText(-n), rest);
    } else {
      DigitsValueNatText(n);
      StoiUnsigned(NatText(n), rest);
    }
  }

  /** Text with no digit after the optional white space and sign is rejected. */
  lemma StoiRejects()
    ensures Stoi("") == None
    ensures Stoi(" ") == None
    ensures Stoi("-") == None
    ensures Stoi("abc") == None
  {
  }

  // ---------------------------------------------------------------------
  // The request's settings (gpt_params)
  // ---------------------------------------------------------------------

  /**
   * The fields of gpt_params a request line can set, plus `verbose`, which
   * only the command line sets. The float fields are kept as reals; the
   * conversion from text is a parameter (`stof`).
   */
  datatype Params = Params(
    seed: int,
    nPredict: int,
    topK: int,
    topP: real,
    temp: real,
    repeatLastN: int,
    repeatPenalty: real,
    verbose: bool)

  /** std::stof: `None` is the exception it throws. */
  type Stof = string -> Option<real>

  /** The keys read_input accepts. */
  const Keys: set<string> :=
    {"input_text", "seed", "n_predict", "top_k", "top_p", "temp", "repeat_last_n", "repeat_penalty"}

  /** What applying a request's entries leads to. */
  datatype ArgsResult =
    | Applied(params: Params, inputText: string)
    | UnknownKey(key: string, params: Params)
    | Thrown

  /** One entry of the request: the branch read_input takes for its key. */
  function ApplyArg(key: string, value: string, p: Params, text: string, stof: Stof): ArgsResult
  {
    if key == "input_text" then Applied(p, value)
    else if key == "seed" then
      (match Stoi(value) case Some(v) => Applied(p.(seed := v), text) case None => Thrown)
    else if key == "n_predict" then
      (match Stoi(value) case Some(v) => Applied(p.(nPredict := v), text) case None => Thrown)
    else if key == "top_k" then
      (match Stoi(value) case Some(v) => Applied(p.(topK := v), text) case None => Thrown)
    else if key == "top_p" then
      (match stof(value) case Some(x) => Applied(p.(topP := x), text) case None => Thrown)
    else if key == "temp" then
      (match stof(value) case Some(x) => Applied(p.(temp := x), text) case None => Thrown)
    else if key == "repeat_last_n" then
      (match Stoi(value) case Some(v) => Applied(p.(repeatLastN := v), text) case None => Thrown)
    else if key == "repeat_penalty" then
      (match stof(value) case Some(x) => Applied(p.(repeatPenalty := x), text) case None => Thrown)
    else UnknownKey(key, p)
  }

  /** The entries in key order, stopping at the first unknown key or exception. */
  function ApplyArgs(args: seq<Entry>, p: Params, text: string, stof: Stof): ArgsResult
    decreases |args|
  {
    if |args| == 0 then Applied(p, text)
    else match ApplyArg(args[0].key, args[0].value, p, text, stof)
      case Applied(p', t') => ApplyArgs(args[1..], p', t', stof)
      case r => r
  }

  /** Whether the value of a key converts without an exception. */
  predicate Converts(key: string, value: string, stof: Stof)
  {
    if key in {"seed", "n_predict", "top_k", "repeat_last_n"} then Stoi(value).Some?
    else if key in {"top_p", "temp", "repeat_penalty"} then stof(value).Some?
    else true
  }

  lemma ApplyArgKnown(key: string, value: string, p: Params, text: string, stof: Stof)
    ensures ApplyArg(key, value, p, text, stof).Applied? <==> key in Keys && Converts(key, value, stof)
    ensures ApplyArg(key, value, p, text, stof).UnknownKey? <==> key !in Keys
    ensures ApplyArg(key, value, p, text, stof).Applied? ==>
      ApplyArg(key, value, p, text, stof).params.verbose == p.verbose
  {
  }

  /**
   * The whitelist, both ways: the entries are all applied exactly when every
   * key is one of the eight known keys and every value converts; the first
   * unknown key in key order, when it comes before any failing conversion,
   * makes the request an error.
   */
  lemma {:induction false} ApplyArgsWhitelist(args: seq<Entry>, p: Params, text: string, stof: Stof)
    ensures ApplyArgs(args, p, text, stof).Applied? <==>
      forall e :: e in args ==> e.key in Keys && Converts(e.key, e.value, stof)
    ensures ApplyArgs(args, p, text, stof).UnknownKey? ==>
      ApplyArgs(args, p, text, stof).key !in Keys
    ensures !ApplyArgs(args, p, text, stof).Thrown? ==>
      ApplyArgs(args, p, text, stof).params.verbose == p.verbose
    decreases |args|
  {
    if |args| > 0 {
      var e := args[0];
      ApplyArgKnown(e.key, e.value, p, text, stof);
      match ApplyArg(e.key, e.value, p, text, stof)
      case Applied(p', t') =>
        ApplyArgsWhitelist(args[1..], p', t', stof);
        assert forall x :: x in args <==> x == e || x in args[1..] by {
          assert args == [e] + args[1..];
        }
      case UnknownKey(_, _) =>
      case Thrown =>
    }
  }

  /**
   * The input text the request ends up with is the value of its
   * `input_text` entry, or the empty text when it has none.
   */
  lemma {:induction false} AppliedInputText(args: seq<Entry>, p: Params, text: string, stof: Stof)
    requires Increasing(args)
    requires ApplyArgs(args, p, text, stof).Applied?
    ensures ApplyArgs(args, p, text, stof).inputText ==
      if "input_text" in ToMap(args) then ToMap(args)["input_text"] else text
    decreases |args|
  {
    if |args| > 0 {
      var e := args[0];
      ToMapKeys(args[1..]);
      match ApplyArg(e.key, e.value, p, text, stof)
      case Applied(p', t') =>
        AppliedInputText(args[1..], p', t', stof);
        if e.key == "input_text" {
          assert "input_text" !in ToMap(args[1..]) by {
            forall x | x in args[1..] ensures x.key != e.key {
              var j :| 0 <= j < |args[1..]| && args[1..][j] == x;
              assert Less(args[0].key, args[j + 1].key);
              LessIrreflexive(e.key);
            }
          }
        }
      case UnknownKey(_, _) =>
      case Thrown =>
    }
  }

  // ---------------------------------------------------------------------
  // read_input
  // ---------------------------------------------------------------------

  datatype ReadState = Success | Stop | Error | Aborted

  /** The state read_input returns, with its by-reference `input` and `params`. */
  datatype ReadResult = ReadResult(state: ReadState, input: seq<Token>, params: Params)

  /** The tokenizer (llama_tokenize without a leading BOS token). */
  type Tokenizer = string -> seq<Token>

  /**
   * read_input on a line already read from standard input (without its
   * newline). `Aborted` stands for an exception from std::stoi or std::stof,
   * which nothing catches.
   */
  function ReadInputSpec(line: string, input: seq<Token>, p: Params, stof: Stof, tokenize: Tokenizer): ReadResult
  {
    if |line| == 0 then ReadResult(Error, input, p)
    else if line == "exit();" || line == "quit();" then ReadResult(Stop, input, p)
    else
      var parsed := ParseDict(line, []);
      if !parsed.ok then ReadResult(Error, input, p)
      else match ApplyArgs(parsed.dict, p, "", stof)
        case Applied(p', t) => ReadResult(Success, input + tokenize(t), p')
        case UnknownKey(_, p') => ReadResult(Error, input, p')
        case Thrown => ReadResult(Aborted, input, p)
  }

  /** read_input: decides on the line, applies its settings, appends its tokens. */
  method ReadInput(line: string, input: seq<Token>, params: Params, stof: Stof, tokenize: Tokenizer)
    returns (r: ReadResult)
    ensures r == ReadInputSpec(line, input, params, stof, tokenize)
  {
    if |line| == 0 {
      return ReadResult(Error, input, params);
    }
    if line == "exit();" || line == "quit();" {
      return ReadResult(Stop, input, params);
    }
    var ok, args := ReadJsonStrDict(line, []);
    if !ok {
      return ReadResult(Error, input, params);
    }
    var p := params;
    var text := "";
    for k := 0 to |args|
      invariant ApplyArgs(args[k..], p, text, stof) == ApplyArgs(args, params, "", stof)
    {
      var key, value := args[k].key, args[k].value;
      assert args[k..][1..] == args[k + 1..];
      if key == "input_text" {
        text := value;
      } else if key == "seed" || key == "n_predict" || key == "top_k" || key == "repeat_last_n" {
        var v := Stoi(value);
        if v.None? {
          return ReadResult(Aborted, input, params);
        }
        if key == "seed" {
          p := p.(seed := v.value);
        } else if key == "n_predict" {
          p := p.(nPredict := v.value);
        } else if key == "top_k" {
          p := p.(topK := v.value);
        } else {
          p := p.(repeatLastN := v.value);
        }
      } else if key == "top_p" || key == "temp" || key == "repeat_penalty" {
        var x := stof(value);
        if x.None? {
          return ReadResult(Aborted, input, params);
        }
        if key == "top_p" {
          p := p.(topP := x.value);
        } else if key == "temp" {
          p := p.(temp := x.value);
        } else {
          p := p.(repeatPenalty := x.value);
        }
      } else {
        return ReadResult(Error, input, p);
      }
    }
    assert args[|args|..] == [];
    var tokens := tokenize(text);
    return ReadResult(Success, input + tokens, p);
  }

  // ---------------------------------------------------------------------
  // What read_input promises
  // ---------------------------------------------------------------------

  /** `exit();` and `quit();` stop the engine before any JSON is read. */
  lemma QuitSentinel(line: string, input: seq<Token>, p: Params, stof: Stof, tokenize: Tokenizer)
    requires line == "exit();" || line == "quit();"
    ensures ReadInputSpec(line, input, p, stof, tokenize) == ReadResult(Stop, input, p)
  {
  }

  /** An empty line is an error. */
  lemma EmptyLine(input: seq<Token>, p: Params, stof: Stof, tokenize: Tokenizer)
    ensures ReadInputSpec("", input, p, stof, tokenize).state == Error
  {
  }

  /** A line the JSON reader rejects is an error and leaves everything as it was. */
  lemma ParseFailure(line: string, input: seq<Token>, p: Params, stof: Stof, tokenize: Tokenizer)
    requires line != "exit();" && line != "quit();"
    requires !ParseDict(line, []).ok
    ensures ReadInputSpec(line, input, p, stof, tokenize) == ReadResult(Error, input, p)
  {
  }

  /**
   * The outcome of a line the JSON reader accepts: success exactly when every
   * key is known and every value converts, and then the tokens of the
   * `input_text` value (or of the empty text) are appended after `input`,
   * which is kept as it was. An unknown key, reached before any failing
   * conversion, is an error.
   */
  lemma ParsedLine(line: string, input: seq<Token>, p: Params, stof: Stof, tokenize: Tokenizer)
    requires line != "exit();" && line != "quit();"
    requires ParseDict(line, []).ok
    ensures var args := ParseDict(line, []).dict;
      var r := ReadInputSpec(line, input, p, stof, tokenize);
      && (r.state == Success <==>
          forall e :: e in args ==> e.key in Keys && Converts(e.key, e.value, stof))
      && (r.state == Success ==>
          r.input == input + tokenize(if "input_text" in ToMap(args) then ToMap(args)["input_text"] else "")
          && r.input[..|input|] == input)
      && (r.state != Success ==> r.input == input)
      && r.params.verbose == p.verbose
  {
    var args := ParseDict(line, []).dict;
    ApplyArgsWhitelist(args, p, "", stof);
    if ApplyArgs(args, p, "", stof).Applied? {
      AppliedInputText(args, p, "", stof);
    }
  }
}
