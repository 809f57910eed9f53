# alpaca.py in Dafny

A model of vitaskonst/alpaca.py, a small HTTP service in front of a C++
inference engine for the Alpaca language model. The service starts the
engine as a child process and exchanges one JSON object per line with it.

The project has four parts:

- `json.dfy` (module `Json`) models the engine's flat JSON codec
  (`cpp/json.cpp`). It covers `read_next_token`, `read_json_str_dict`,
  `write_string` and `write_json_str_dict`.
  - A `std::map<std::string, std::string>` is a list of entries whose keys
    strictly increase (`Dict`). `ToMap` gives its map view.
  - The writers are loops proved equal to `EncodeDict`.
  - The readers are loops proved equal to `NextToken`, `ScanLiteral` and
    `ParseDict`.
  - Proved: escaping, the absence of raw newlines, the failure cases of the
    lexer, the rejection of `{}`, and the round trip from writer to reader.
- `request.dfy` (module `Request`) models `read_input` in `cpp/alpaca.cpp`:
  - the quit sentinels and the empty line;
  - the key whitelist, with `std::stoi` written out (white space, sign,
    digits, int range) and `std::stof` as a parameter;
  - the tokens appended to the input.
- `generation.dfy` (module `Generation`) and `engine.dfy` (module `Engine`)
  model the rest of one pass of `main`'s loop:
  - the prompt truncation loop, with `size_t` wrap-around;
  - the `last_n_tokens` window;
  - the generation loop and its stop conditions;
  - the output map and the error lines;
  - the loop over all input lines.

  The model's library calls (tokenizer, evaluation, sampler, detokenizer,
  timing) are uninterpreted functions gathered in `Generation.Llama`.
- `client.dfy` (module `Client`) and `api.dfy` (module `Api`) model the
  Python side:
  - the prompt templates and `InferenceRequest`;
  - the `Alpaca` process manager as a class over an abstract line channel
    (`Pipe`: lines sent, lines still to read);
  - the token store of the HTTP service, with its request counters, its
    start-up and shutdown hooks and its routes.

How the two sides meet, as the code is written:

- A request that reaches generation is always answered with
  `reached_max_content_size` set to `"true"` or `"false"` (`cpp/alpaca.cpp`
  lines 218-219). `Alpaca.run` applies `int()` to every value but `output`
  (`alpaca.py` line 87), so every successful answer makes `run` raise
  ValueError. This is proved as `Client.EngineReplyRaises`.
- `Alpaca.start` reads a first line as the engine's system information
  (`alpaca.py` lines 54-63), but the engine's `main` writes nothing to
  standard output before it reads its first request (`cpp/alpaca.cpp`
  lines 88-133 write to standard error only). The model
  keeps both sides as written, so the client's first read is whatever the
  channel holds.
- An invalid request is answered only when the engine runs in verbose mode
  (`cpp/alpaca.cpp` lines 139-143, proved as `Engine.InvalidRequest`).
  Otherwise the client's read of the answer waits. The model of `run` reads
  "" when nothing is pending, which is what `readline` returns at end of file.
- `ModelResponse` (`alpaca_api.py` lines 11-18) declares
  `input_token_length` and `output_token_length`. The engine's output map
  (`cpp/alpaca.cpp` lines 216-230) has neither; it has
  `memory_per_token_bytes` instead.
- When the engine does not exit within ten seconds, `process.wait(10)`
  raises before `process` is cleared (`alpaca.py` lines 75-76), so `stop`
  keeps the process. `Client.Alpaca.Stop` and `Api.Service.Shutdown` state
  this case.
- `json.dumps` may produce escapes (`\uXXXX`, `\r`) that `read_next_token`
  rejects. The client's encoder is a parameter, so no end-to-end round trip
  is claimed. The integer fields the client sends are read back by
  `std::stoi` as the same numbers (`Client.IntFieldsReadBack`).

## Model

| member | source | states |
|---|---|---|
| Json.Insert | cpp/json.cpp:90 | `output[key] = value`: the map view becomes the old view with `key` bound to `value`, so a repeated key keeps its later value; the entries stay in key order |
| Json.Escape | cpp/json.cpp:109-128 | the escaped text of a string never contains a raw newline |
| Json.EscapeLength | cpp/json.cpp:109-128 | escaping never shortens a string and at most doubles it |
| Json.EscapeAppend | cpp/json.cpp:108-129 | escaping works character by character: the escape of a concatenation is the concatenation of the escapes |
| Json.CopiedRaw | cpp/json.cpp:109-128 | only `"`, tab, newline and backslash are escaped: any other text, a carriage return included, is copied raw |
| Json.EscapeNul | cpp/json.cpp:109-128 | the escaped text holds a NUL exactly when the input does: write_string copies it like any other character |
| Json.EncodeEntriesNul | cpp/json.cpp:133-149 | the written entries hold a NUL exactly when some key or value does |
| Json.SpacedEntryRead | cpp/json.cpp:61-104 | an object of one entry, with spaces after `{` and `:` and before `}`, is read back as that one entry |
| Json.EscapesInvert | cpp/json.cpp:32-48 | every two-character escape the writer emits is a backslash followed by a character the lexer decodes back to the original; every other character is copied and is neither `"` nor a backslash |
| Json.EncodeEntriesSnoc | cpp/json.cpp:137-147 | entries are written in key order, with a comma before every entry but the first and no trailing comma |
| Json.EncodeDict | cpp/json.cpp:133-149 | the written object starts with `{`, ends with `}` and contains no raw newline |
| Json.AppendEscaped | cpp/json.cpp:109-128 | one step of write_string's loop appends the escape of one character to the output |
| Json.WriteString | cpp/json.cpp:106-131 | write_string only appends, and what it appends is the quoted, escaped value |
| Json.WriteEntry | cpp/json.cpp:141-145 | one entry is appended as quoted key, colon, quoted value |
| Json.WriteJsonStrDict | cpp/json.cpp:133-149 | write_json_str_dict only appends to `output`, and what it appends is the encoded object |
| Json.NextToken | cpp/json.cpp:3-59 | whenever a token is found, the index moves strictly forward and stays within the input |
| Json.ScanLiteral | cpp/json.cpp:18-55 | a string literal that closes ends strictly after where it started and within the input |
| Json.ReadNextToken | cpp/json.cpp:3-59 | read_next_token reports success exactly when `NextToken` finds a token, and then returns that token and index |
| Json.SkipSpaces | cpp/json.cpp:5-10 | spaces before a token are skipped: the token found is the one after them |
| Json.NoTokenAtEnd | cpp/json.cpp:5-10 | input with only spaces left yields no token, the end-of-input failure at line 58 |
| Json.PunctToken | cpp/json.cpp:12-16 | any character other than a space or a quote is a one-character token |
| Json.QuotedToken | cpp/json.cpp:18-53 | a literal as write_string writes it is read back as the original string, with the index just past its closing quote |
| Json.LiteralFailures | cpp/json.cpp:20-55 | a literal fails on an unknown escape, on a backslash at the very end, and when no closing quote comes |
| Json.ReadJsonStrDict | cpp/json.cpp:61-104 | read_json_str_dict reports and inserts exactly what `ParseDict` describes: `{`, entries `key : value` separated by `,`, then `}` |
| Json.EntryTokens | cpp/json.cpp:76-89 | a written entry is lexed as key, `:` and value, each ending where the next starts |
| Json.ParseEntriesStep | cpp/json.cpp:76-90 | after key, colon and value, the reader inserts the entry into the output and goes on to the separator |
| Json.SeparatorStep | cpp/json.cpp:91-100 | `,` reads another entry and `}` ends the object successfully |
| Json.ParseEncodedEntries | cpp/json.cpp:74-101 | the written entries are read back in order, each inserted, until the closing brace |
| Json.RoundTrip | cpp/json.cpp:61-149 | reading back what write_json_str_dict writes for a non-empty map, into an empty map, succeeds and yields that map |
| Json.EmptyObjectRejected | cpp/json.cpp:76-82 | the writer emits `{}` for an empty map, and the reader rejects `{}` |
| Request.Stoi | cpp/alpaca.cpp:57 | std::stoi yields a value only within the range of int; otherwise it throws |
| Request.StoiIntText | cpp/alpaca.cpp:57 | std::stoi reads back the decimal text of any number, followed by anything that does not start with a digit; out of int range it throws |
| Request.StoiRejects | cpp/alpaca.cpp:57 | std::stoi throws on the empty text, on white space alone, on a lone minus sign and on a word |
| Request.NatText | cpp/alpaca.cpp:224-229 | `%lu` prints a non-empty run of digits |
| Request.DigitsValueNatText | cpp/alpaca.cpp:224-229 | the digits `%lu` prints denote the number printed |
| Request.ApplyArgKnown | cpp/alpaca.cpp:54-74 | one entry is applied exactly when its key is one of the eight known keys and its value converts; an unknown key is an error; `verbose` is never changed |
| Request.ApplyArgsWhitelist | cpp/alpaca.cpp:51-75 | all entries are applied exactly when every key is known and every value converts; the error names an unknown key |
| Request.AppliedInputText | cpp/alpaca.cpp:49-55 | the text to tokenize is the `input_text` value, or empty when the request has none |
| Request.ReadInput | cpp/alpaca.cpp:20-81 | read_input's loop over the entries returns the state, input and settings `ReadInputSpec` describes |
| Request.QuitSentinel | cpp/alpaca.cpp:36-42 | `exit();` and `quit();` stop the engine before any JSON is read, changing nothing |
| Request.EmptyLine | cpp/alpaca.cpp:32-34 | an empty line is an error |
| Request.ParseFailure | cpp/alpaca.cpp:44-47 | a line the JSON reader rejects is an error and changes nothing |
| Request.ParsedLine | cpp/alpaca.cpp:44-80 | a parsed line succeeds exactly when every key is known and every value converts; then the tokens of `input_text` are appended after the unchanged input, and otherwise the input stays as it was |
| Generation.TruncCount | cpp/alpaca.cpp:150-154 | the corrected loop never removes more tokens than the prompt has |
| Generation.TruncationStops | cpp/alpaca.cpp:150-154 | the loop removes tokens only while the prompt is over budget, and stops once it is within budget or empty |
| Generation.TruncationFits | cpp/alpaca.cpp:150-159 | with `0 <= n_predict <= n_ctx`, the remaining prompt leaves room for `n_predict` tokens, so the length check never fires |
| Generation.TruncationDefined | cpp/alpaca.cpp:150-154 | with `n_predict <= n_ctx` and a prompt of at least `-n_predict` tokens the loop as written never erases from an empty vector, so with `TruncationAgrees` the bound of `TruncationFits` holds of the code as written |
| Generation.TruncationUndefinedShort | cpp/alpaca.cpp:151-152 | as written, a negative `n_predict` with fewer prompt tokens than `-n_predict` wraps the size_t sum at every size left, so the loop erases from an empty vector |
| Generation.TruncationAgrees | cpp/alpaca.cpp:150-154 | wherever the loop as written is defined, the corrected loop removes the same number of tokens |
| Generation.TruncationUndefined | cpp/alpaca.cpp:151-152 | as written, `n_predict > n_ctx` makes the loop erase from an empty vector, whatever the prompt |
| Generation.TruncationCounterexample | cpp/alpaca.cpp:151-152 | a 3-token prompt with `n_ctx` 512 and `n_predict` 513 reaches that erase, and the corrected loop removes all 3 tokens; so do a 3-token prompt with `n_predict` -5 and an empty prompt with `n_predict` -1, which size_t arithmetic turns into sums near 2^64 |
| Generation.Truncate | cpp/alpaca.cpp:150-154 | the loop removes tokens from the front only; what remains is the original minus the `n_tokens_truncated` first tokens |
| Generation.Zeros | cpp/alpaca.cpp:181-182 | the window starts with `repeat_last_n` zeros |
| Generation.Window | cpp/alpaca.cpp:181-182 | the window always has length `repeat_last_n` |
| Generation.Slide | cpp/alpaca.cpp:207-208 | one step keeps the window's length |
| Generation.WindowStart | cpp/alpaca.cpp:181-182 | before any step the window is all zeros |
| Generation.SlideWindow | cpp/alpaca.cpp:207-208 | each step drops the oldest id and appends the newest, so the window holds the last `repeat_last_n` evaluated ids, zero-padded |
| Generation.SlideAgrees | cpp/alpaca.cpp:207-208 | on a non-empty window the step as written is the corrected step |
| Generation.SlideUndefined | cpp/alpaca.cpp:207 | with `repeat_last_n` 0 the step as written erases from an empty vector |
| Generation.GenContext | cpp/alpaca.cpp:185-209 | the evaluated context grows by exactly the sampled ids, in order, except for an id that stops the loop, and never beyond `n_ctx` |
| Generation.GenStop | cpp/alpaca.cpp:185-193 | the loop stops only when `n_past == n_ctx`, or when the last sampled id is 2 or brings `n_outputs` up to `n_predict` |
| Generation.GenFirstStop | cpp/alpaca.cpp:185-193 | the loop stops at the first such id: no evaluated id is 2, and each was sampled while `n_outputs` stayed below `n_predict` |
| Generation.GenWindow | cpp/alpaca.cpp:181-208 | at the end the window holds the last `repeat_last_n` evaluated ids, zero-padded |
| Generation.PiecesSnoc | cpp/alpaca.cpp:189 | the output text grows by the text of each sampled id |
| Generation.Generate | cpp/alpaca.cpp:180-209 | the generation loop ends as `GenLoop` describes, and its output text is the concatenated text of the sampled ids |
| Engine.Padded8 | cpp/alpaca.cpp:222 | `%8zu` prints at least eight characters |
| Engine.OutputMap | cpp/alpaca.cpp:216-230 | the output map has exactly the six keys, with `reached_max_content_size` "true" or "false" depending on `n_past == n_ctx` and decimal numbers in the others |
| Engine.ReachedMax | cpp/alpaca.cpp:218-219 | `reached_max_content_size` is "true" exactly when `n_past == n_ctx`, and "false" otherwise |
| Engine.NoErrorKey | cpp/alpaca.cpp:216-230 | an answer never has an `error` key |
| Engine.CText | cpp/alpaca.cpp:236 | `%s` prints the longest prefix of the text that holds no NUL |
| Engine.ReplyIsOneLine | cpp/alpaca.cpp:234-237 | an answer is one line: its only newline is the last character |
| Engine.ReplyWhole | cpp/alpaca.cpp:234-237 | the whole object is written exactly when no key or value holds a NUL; a generated piece with a NUL cuts the line short |
| Engine.ErrorIsOneLine | cpp/alpaca.cpp:83-86 | an error message without newlines gives one line |
| Engine.ErrorLineQuoted | cpp/alpaca.cpp:83-86 | write_error's fixed text around a message that needs no escaping is the object `{ "error": message }` as the JSON writer quotes it |
| Engine.ErrorLineReadBack | cpp/alpaca.cpp:83-86 | the JSON reader reads an error line back as the map whose only key is `error`, bound to the message, when the message needs no escaping |
| Engine.HandleLine | cpp/alpaca.cpp:129-143 | one pass of main's loop, from a fresh copy of the global settings, ends as `Respond` describes |
| Engine.AnswerRequest | cpp/alpaca.cpp:150-238 | truncation, the length check, prompt evaluation, the window, generation and the answer end as `Answer` describes |
| Engine.RespondWritesLines | cpp/alpaca.cpp:126-239 | everything a pass writes to standard output is whole lines |
| Engine.AnswerWritesLines | cpp/alpaca.cpp:156-238 | the error lines and the answer after a parsed request are whole lines |
| Engine.InvalidRequest | cpp/alpaca.cpp:139-143 | an invalid request is answered with "Invalid arguments" in verbose mode only, and the loop goes on |
| Engine.AnsweredRequest | cpp/alpaca.cpp:150-238 | a request that reaches the end of generation is answered with exactly one line, its output map |
| Engine.GenerationEnd | cpp/alpaca.cpp:185-193 | the answered context starts with the prompt and fits `n_ctx`; no evaluated id was 2 or reached `n_predict`; and unless the context is full, the last sampled id was 2 or reached `n_predict` |
| Engine.RunEngine | cpp/alpaca.cpp:126-239 | main's loop over the input lines writes, and stops, as `Run` describes |
| Engine.NoCarryOver | cpp/alpaca.cpp:129 | after lines that each let the loop go on, the rest is answered as if it came first: no request's settings carry over |
| Client.DefaultPrompt | alpaca.py:10-14 | the default prompt is exactly as long as the header, the instruction mark, the text and the response mark together |
| Client.Instruction | alpaca.py:10-14 | whatever instruction is found in a prompt rebuilds that prompt through the template |
| Client.InstructionOfDefault | alpaca.py:10-14 | the instruction can be read back from a default prompt |
| Client.InstructionOfAdvertisement | alpaca.py:17-18 | reading back an advertisement prompt gives the lead followed by the keywords |
| Client.NewRequest | alpaca.py:21-28 | the defaults are `top_k` 40, `top_p` 0.95, `temp` 0.1, `repeat_penalty` 1.3, `repeat_last_n` 64 and `n_predict` 128 |
| Client.WrapDefault | alpaca.py:30-33 | the copy differs only in `input_text`, which wraps the original text |
| Client.WrapAdvertisement | alpaca.py:35-38 | the copy differs only in `input_text`, which wraps the lead and the original text |
| Client.RequestFields | alpaca.py:79-80 | the request becomes seven string fields, `input_text` first, every key one the engine accepts |
| Client.IntFieldsReadBack | alpaca.py:80 | the engine's std::stoi reads back `str` of each integer field as the same number, when it fits an int |
| Client.TrimStart | alpaca.py:70 | `lstrip` leaves nothing longer, and no white space at the front |
| Client.TrimEnd | alpaca.py:70 | `rstrip` leaves nothing longer, and no white space at the end |
| Client.StripTrims | alpaca.py:70 | `strip` keeps a contiguous piece of the line with no white space at either end, and cuts only white space |
| Client.StripIdempotent | alpaca.py:70 | stripping twice is stripping once |
| Client.PyIntNatText | alpaca.py:63 | `int` reads back the decimal text of a number |
| Client.PyIntPadded | alpaca.py:87 | `int` reads back the engine's `%8zu` field, whose padding is white space |
| Client.PyIntRejectsWords | alpaca.py:87 | `int("true")` and `int("false")` raise |
| Client.SystemInfo | alpaca.py:61-63 | the system information exists exactly when the line decodes and every value converts, and it has the decoded keys |
| Client.SystemInfoDecimal | alpaca.py:61-63 | a line of decimal numbers gives those numbers under the same keys |
| Client.ConvertCases | alpaca.py:84-87 | a reply with `error` raises with its message; otherwise `output` stays text and every other value is what `int` reads; a value `int` cannot read raises |
| Client.UnreadableValue | alpaca.py:87 | one value other than `output` that `int` cannot read makes `run` raise ValueError |
| Client.EngineReplyRaises | alpaca.py:87 | every answer of the engine to a request makes `run` raise ValueError, because of `reached_max_content_size` |
| Client.AfterRead | alpaca.py:69-70 | a read consumes exactly the first pending line, and nothing at end of file |
| Client.Framed | alpaca.py:65-67 | the line sent is the stripped message followed by exactly one newline |
| Client.QuitLine | alpaca.py:74 | stop sends the line `quit();` |
| Client.Alpaca.constructor | alpaca.py:42-48 | a new manager has started its process and read its first line |
| Client.Alpaca.Start | alpaca.py:50-63 | start does nothing when a process exists; otherwise it starts one, reads exactly one line, and sets the system information when that line converts |
| Client.Alpaca.Write | alpaca.py:65-67 | `_write` appends exactly one framed line to what was sent |
| Client.Alpaca.ReadStdout | alpaca.py:69-70 | `_read_stdout` returns the next line stripped, or "" at end of file, and consumes it |
| Client.Alpaca.Stop | alpaca.py:72-76 | stop sends `quit();`, then forgets the process if it exits in time and raises otherwise |
| Client.Alpaca.Run | alpaca.py:78-88 | run sends exactly one line, the encoded fields, reads exactly one line, and converts it |
| Client.Alpaca.RunSimple | alpaca.py:90-91 | run_simple is run on the request wrapped in the default template |
| Api.Bump | alpaca_api.py:40-45 | counting a request fails exactly for an unknown token, and never changes the set of tokens |
| Api.BumpCounts | alpaca_api.py:43 | a known token's counter goes up by exactly one, and no other counter changes |
| Api.BumpTotal | alpaca_api.py:43 | each counted request adds exactly one to the total over all tokens |
| Api.LineCount | alpaca_api.py:64 | the loop over the keys file reads up to the first "" `readline` returns |
| Api.AddKeysContents | alpaca_api.py:62-65 | after the loop, a token is a key exactly when it is a right-stripped line of the file; duplicates collapse, and each such key has count 0 |
| Api.Mock | alpaca_api.py:87-96 | the mock answer is fixed: its total length is its input length plus its output length, nothing is truncated and the context is not full |
| Api.MockIgnoresRequest | alpaca_api.py:87-96 | the mock answers every request the same |
| Api.Service.constructor | alpaca_api.py:24-25 | before start-up there is no model and no store |
| Api.Service.VerifyToken | alpaca_api.py:37-38 | a token is valid exactly when counting a request for it succeeds, that is when it is a key of the store |
| Api.Service.UpdateStats | alpaca_api.py:40-45 | a known token is counted once; an unknown one gets 403 "Invalid token" and no counter changes |
| Api.Service.Startup | alpaca_api.py:57-65 | start-up raises exactly when the engine's first line does not convert, and then assigns neither the model nor the store; otherwise it creates a new model whose process has had its first line read and whose system information is that line's, and builds the store from the keys file |
| Api.Service.Stats | alpaca_api.py:76-78 | stats returns the store and changes nothing |
| Api.Service.Shutdown | alpaca_api.py:68-73 | shutdown stops and forgets the model only when there is one; when stop raises, the model is kept, its process has been sent `quit();` and is still there, and its system information is unchanged |
| Api.Service.Prompt | alpaca_api.py:98-121 | a counted route answers an unknown token with 403 before the engine is touched; otherwise it counts the request once, sends the wrapped request as one line and converts the one line it reads back; the engine's system information never changes |

## Left out

- Standard input and output of the engine are a sequence of lines already
  read. `scanf`'s 4095-character buffer, NUL bytes and the end-of-file
  behaviour of `read_input` are not modelled; at end of file the engine
  would treat every read as an empty line.
- Messages on standard error in verbose mode are not modelled.
- Model loading, `gpt_params_parse` and the measurement of
  `mem_per_token` are not modelled; `Engine.Model` carries `n_ctx` and the
  measured memory per token.
- The llama library calls are uninterpreted functions of `Generation.Llama`:
  `llama_tokenize`, `llama_eval_t` success, `llama_sample_top_p_top_k`,
  `id_to_token` and the reported evaluation time.
- The evaluation time is one function of the evaluated context, so timing
  differences between runs are not modelled.
- The replacement of a negative seed by `time(NULL)` and the random
  generator are not modelled. The sampler receives the request's settings.
- `std::stof` is a parameter, and the float settings are reals.
- Engine.Answer: uses the corrected truncation count and window step on
  the inputs where the code as written erases from an empty vector, which
  is undefined behaviour: `n_predict` above `n_ctx`, a negative `n_predict`
  with fewer prompt tokens than `-n_predict` (an empty `input_text` with
  -1, say), and `repeat_last_n` 0 (see "## Findings";
  `Generation.TruncationUndefined`, `Generation.TruncationUndefinedShort`,
  `Generation.SlideUndefined`). On every other input the two agree
  (`Generation.TruncationDefined`, `Generation.TruncationAgrees`,
  `Generation.SlideAgrees`).
- Engine.ReplyIsOneLine: a line ends at `\n` only. `write_string` copies a
  carriage return raw (`Json.CopiedRaw`), and a generated piece may contain
  one. The client's text-mode pipe also ends a line at `\r`, so such a
  reply reaches `run` split in two. This is not modelled; the `Pipe`
  channel splits at `\n` only.
- Client.EngineReplyRaises: assumes `json.loads` decodes the reply. By
  default `json.loads` rejects raw control characters inside strings, so a
  reply whose output holds one makes `run` raise a decoding error instead.
  So does a reply cut short at a NUL (`Engine.ReplyWhole`), which is not a
  whole object.
- Engine.Respond: a negative `repeat_last_n` is modelled as a crash. The
  window's constructor then receives a size that converts to a huge
  `size_t`, so it throws.
- Python's `str` on a float is a parameter. The float defaults are the
  exact reals 0.95, 0.1 and 1.3 rather than binary floats.
- `json.dumps` and `json.loads` are parameters. `loads` yields string
  values only, which is what the engine writes.
- Client.PyInt: `int` with underscores between digits and non-ASCII digits
  is not modelled.
- Client.Strip: white space above U+00FF is not modelled.
- Client.TrimStart: white space above U+00FF is not modelled.
- Client.TrimEnd: white space above U+00FF is not modelled; `Api.AddKeys`
  uses it for `rstrip`.
- Client.StripTrims: white space above U+00FF is not modelled.
- Client.NextLine: a read with nothing pending gives "", as `readline`
  does at end of file. The real `readline` blocks until the engine writes a
  line or exits; waiting is not modelled.
- Api.Service.Startup: when `Alpaca(...)` raises, the engine process it
  launched keeps running unreferenced; the model does not track it.
- Subprocess creation, pipes, `flush` and the timeout of `process.wait(10)`
  are not modelled. The process is a `Pipe` given to `start`, and whether
  it exits in time is a parameter of `stop`.
- Client.Alpaca.Run: requires a running process. Without one, Python raises
  AttributeError on `self.process.stdin`.
- Client.Alpaca.Write: requires a running process, for the same reason.
- Client.Alpaca.ReadStdout: requires a running process, for the same reason.
- Client.Alpaca.constructor: when `start` raises, `__init__` raises too. The
  model ends construction with the system information unset.
- `threading.Lock` is not modelled. Each method body is one atomic step.
- Api.Service.UpdateStats: requires the store to exist, which is the
  assertion in `get_keys`.
- Api.Service.Stats: requires the store to exist, for the same reason.
- Api.Service.VerifyToken: requires the store to exist, for the same reason.
- Api.Service.Prompt: requires the store and a running model, the
  assertions in `get_keys` and `get_model`.
- FastAPI routing, `HTTPBearer` header parsing, pydantic validation and
  the construction of `ModelResponse` from the engine's answer are not
  modelled.
- Environment variables, and opening and decoding the keys file, are not
  modelled. The file is the sequence of strings `readline` returns.
- `demo_st.py` and `demo_cli.py` are user-interface glue and are not part of
  this model.

## Findings

| source | as written | input that shows it | evidently intended | confidence | as-written member | corrected member |
|---|---|---|---|---|---|---|
| cpp/alpaca.cpp:151-154 | the truncation loop erases the first token while `size + n_predict > n_ctx` and never checks for an empty prompt | `n_ctx` 512 and a request with `"n_predict": "513"`: once the prompt is empty the condition still holds, so `erase(begin())` runs on an empty vector, which is undefined behaviour; likewise a negative `n_predict` with fewer prompt tokens than its magnitude, such as `"n_predict": "-5"` with a 3-token prompt or `"-1"` with an empty `input_text` | stop at the empty prompt | high that it is reachable, medium about the fix; not executed | Generation.TruncationCounterexample | Generation.TruncationStops |
| cpp/alpaca.cpp:181-182, 207-208 | each evaluated step erases the first element of `last_n_tokens`, whose length is `repeat_last_n` | a request with `"repeat_last_n": "0"` whose first sampled id is neither 2 nor the last allowed output: `erase(begin())` runs on an empty vector | an empty window stays empty | high that it is reachable, medium about the fix; not executed | Generation.SlideUndefined | Generation.SlideWindow |
