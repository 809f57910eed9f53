/**
 * The engine's hand-written flat JSON codec (cpp/json.cpp): a small lexer,
 * a reader for objects whose keys and values are all strings, and two
 * writers. Strings are sequences of characters; a C++ std::map<std::string,
 * std::string> is a sequence of entries whose keys strictly increase, so that
 * the order in which the writer visits them is part of the model.
 */
module Json {
  import opened Wrappers

  // ---------------------------------------------------------------------
  // Key order and the std::map model
  // ---------------------------------------------------------------------

  /** Strict lexicographic order on strings: the order of std::map keys. */
  predicate Less(a: string, b: string)
    decreases |a|
  {
    |b| > 0 && (|a| == 0 || a[0] < b[0] || (a[0] == b[0] && Less(a[1..], b[1..])))
  }

  lemma {:induction false} LessIrreflexive(a: string)
    ensures !Less(a, a)
    decreases |a|
  {
    if |a| > 0 {
      LessIrreflexive(a[1..]);
    }
  }

  lemma {:induction false} LessTransitive(a: string, b: string, c: string)
    requires Less(a, b) && Less(b, c)
    ensures Less(a, c)
    decreases |a|
  {
    if |a| > 0 && a[0] == b[0] && b[0] == c[0] {
      LessTransitive(a[1..], b[1..], c[1..]);
    }
  }

  lemma LessAsymmetric(a: string, b: string)
    requires Less(a, b)
    ensures !Less(b, a)
  {
    if Less(b, a) {
      LessTransitive(a, b, a);
      LessIrreflexive(a);
    }
  }

  lemma {:induction false} LessTotal(a: string, b: string)
    requires a != b
    ensures Less(a, b) || Less(b, a)
    decreases |a|
  {
    if |a| > 0 && |b| > 0 && a[0] == b[0] {
      assert a == [a[0]] + a[1..] && b == [b[0]] + b[1..];
      LessTotal(a[1..], b[1..]);
    }
  }

  /** One key/value pair of a map. */
  datatype Entry = Entry(key: string, value: string)

  /** The keys strictly increase: no key twice, entries in iteration order. */
  predicate Increasing(d: seq<Entry>)
  {
    forall i, j :: 0 <= i < j < |d| ==> Less(d[i].key, d[j].key)
  }

  /** A std::map<std::string, std::string>, as the sequence it iterates over. */
  type Dict = d: seq<Entry> | Increasing(d) witness []

  /** The mathematical map a dictionary stands for. */
  function ToMap(d: seq<Entry>): map<string, string>
  {
    if |d| == 0 then map[] else ToMap(d[1..])[d[0].key := d[0].value]
  }

  lemma {:induction false} ToMapKeys(d: seq<Entry>)
    ensures ToMap(d).Keys == set e | e in d :: e.key
  {
    if |d| > 0 {
      ToMapKeys(d[1..]);
      assert d == [d[0]] + d[1..];
    }
  }

  /** An increasing sequence stays increasing when a smaller key is put in front. */
  lemma ConsIncreasing(x: Entry, s: seq<Entry>)
    requires Increasing(s)
    requires forall e :: e in s ==> Less(x.key, e.key)
    ensures Increasing([x] + s)
  {
    var r := [x] + s;
    forall i, j | 0 <= i < j < |r| ensures Less(r[i].key, r[j].key) {
      assert r[j] == s[j - 1];
      if i > 0 {
        assert r[i] == s[i - 1];
      }
    }
  }

  /** `output[key] = value` on the entry sequence, without its contract. */
  function InsertEntry(d: seq<Entry>, k: string, v: string): seq<Entry>
  {
    if |d| == 0 then [Entry(k, v)]
    else if d[0].key == k then [Entry(k, v)] + d[1..]
    else if Less(k, d[0].key) then [Entry(k, v)] + d
    else [d[0]] + InsertEntry(d[1..], k, v)
  }

  /** Every key of `d` after its first exceeds a key below that first one. */
  lemma BelowHead(d: seq<Entry>, k: string)
    requires Increasing(d) && |d| > 0 && Less(k, d[0].key)
    ensures forall e :: e in d ==> Less(k, e.key)
  {
    forall e | e in d ensures Less(k, e.key) {
      if e != d[0] {
        var j :| 0 < j < |d| && d[j] == e;
        LessTransitive(k, d[0].key, d[j].key);
      }
    }
  }

  lemma {:induction false} InsertEntryElems(d: seq<Entry>, k: string, v: string)
    ensures forall e :: e in InsertEntry(d, k, v) ==> e == Entry(k, v) || e in d
    ensures |InsertEntry(d, k, v)| in {|d|, |d| + 1}
  {
    if |d| > 0 && d[0].key != k && !Less(k, d[0].key) {
      InsertEntryElems(d[1..], k, v);
      assert forall e :: e in d[1..] ==> e in d;
    }
  }

  lemma {:induction false} InsertEntryMap(d: seq<Entry>, k: string, v: string)
    ensures ToMap(InsertEntry(d, k, v)) == ToMap(d)[k := v]
  {
    if |d| > 0 && d[0].key != k && !Less(k, d[0].key) {
      InsertEntryMap(d[1..], k, v);
    }
  }

  lemma {:induction false} InsertEntryIncreasing(d: seq<Entry>, k: string, v: string)
    requires Increasing(d)
    ensures Increasing(InsertEntry(d, k, v))
  {
    if |d| == 0 {
    } else if d[0].key == k {
      assert forall e :: e in d[1..] ==> Less(k, e.key);
      ConsIncreasing(Entry(k, v), d[1..]);
    } else if Less(k, d[0].key) {
      BelowHead(d, k);
      ConsIncreasing(Entry(k, v), d);
    } else {
      var tail := d[1..];
      var rest := InsertEntry(tail, k, v);
      InsertEntryIncreasing(tail, k, v);
      InsertEntryElems(tail, k, v);
      LessTotal(k, d[0].key);
      forall e | e in rest ensures Less(d[0].key, e.key) {
        if e != Entry(k, v) {
          var j :| 0 <= j < |tail| && tail[j] == e;
          assert d[j + 1] == e;
        }
      }
      ConsIncreasing(d[0], rest);
    }
  }

  /**
   * `output[key] = value` on a std::map: overwrites the value of an existing
   * key, otherwise adds the key at its place in the order.
   */
  function Insert(d: Dict, k: string, v: string): (r: Dict)
    ensures ToMap(r) == ToMap(d)[k := v]
    ensures forall e :: e in r ==> e == Entry(k, v) || e in d
    ensures |r| == |d| || |r| == |d| + 1
  {
    InsertEntryElems(d, k, v);
    InsertEntryMap(d, k, v);
    InsertEntryIncreasing(d, k, v);
    InsertEntry(d, k, v)
  }

  /** Inserting a key larger than every key present appends it at the end. */
  lemma {:induction false} InsertLargest(d: seq<Entry>, k: string, v: string)
    requires forall e :: e in d ==> Less(e.key, k)
    ensures InsertEntry(d, k, v) == d + [Entry(k, v)]
  {
    if |d| > 0 {
      assert d[0] in d;
      LessIrreflexive(k);
      LessAsymmetric(d[0].key, k);
      assert forall e :: e in d[1..] ==> e in d;
      InsertLargest(d[1..], k, v);
      assert d == [d[0]] + d[1..];
    }
  }

  // ---------------------------------------------------------------------
  // Writing: write_string and write_json_str_dict
  // ---------------------------------------------------------------------

  /** How write_string renders one character between the quotes. */
  function EscapeChar(c: char): string
  {
    match c
    case '"' => ['\\', '"']
    case '\t' => ['\\', 't']
    case '\n' => ['\\', 'n']
    case '\\' => ['\\', '\\']
    case _ => [c]
  }

  /** The characters write_string emits between its two quotes. */
  function Escape(s: string): (r: string)
    ensures '\n' !in r
  {
    if |s| == 0 then [] else EscapeChar(s[0]) + Escape(s[1..])
  }

  /** Escaping never shortens the text and at most doubles it. */
  lemma {:induction false} EscapeLength(s: string)
    ensures |s| <= |Escape(s)| <= 2 * |s|
  {
    if |s| > 0 {
      EscapeLength(s[1..]);
    }
  }

  lemma {:induction false} EscapeAppend(a: string, b: string)
    ensures Escape(a + b) == Escape(a) + Escape(b)
  {
    if |a| > 0 {
      assert (a + b)[0] == a[0] && (a + b)[1..] == a[1..] + b;
      EscapeAppend(a[1..], b);
    } else {
      assert a + b == b;
    }
  }

  lemma EscapeSnoc(s: string, i: nat)
    requires i < |s|
    ensures Escape(s[..i + 1]) == Escape(s[..i]) + EscapeChar(s[i])
  {
    EscapeAppend(s[..i], [s[i]]);
    assert s[..i + 1] == s[..i] + [s[i]];
    assert Escape([s[i]]) == EscapeChar(s[i]) + Escape([]);
  }

  /** The text write_string appends for `s`. */
  function Quote(s: string): string
  {
    ['"'] + Escape(s) + ['"']
  }

  /** The text of one map entry: quoted key, colon, quoted value. */
  function EntryText(e: Entry): string
  {
    Quote(e.key) + [':'] + Quote(e.value)
  }

  /** The entries in order, separated by commas, with no trailing comma. */
  function EncodeEntries(d: seq<Entry>): (r: string)
    ensures '\n' !in r
  {
    if |d| == 0 then []
    else if |d| == 1 then EntryText(d[0])
    else EntryText(d[0]) + [','] + EncodeEntries(d[1..])
  }

  lemma {:induction false} EncodeEntriesSnoc(d: seq<Entry>, e: Entry)
    ensures EncodeEntries(d + [e]) ==
      EncodeEntries(d) + (if |d| == 0 then [] else [',']) + EntryText(e)
  {
    if |d| > 0 {
      assert (d + [e])[1..] == d[1..] + [e];
      EncodeEntriesSnoc(d[1..], e);
    }
  }

  lemma Assoc<T>(a: seq<T>, b: seq<T>, c: seq<T>)
    ensures a + b + c == a + (b + c)
  {
  }

  lemma EncodeEntriesPrefix(d: seq<Entry>, k: nat)
    requires k < |d|
    ensures EncodeEntries(d[..k + 1]) ==
      EncodeEntries(d[..k]) + (if k == 0 then [] else [',']) + EntryText(d[k])
  {
    EncodeEntriesSnoc(d[..k], d[k]);
    assert d[..k + 1] == d[..k] + [d[k]];
  }

  /** The text write_json_str_dict appends for `d`. */
  function EncodeDict(d: Dict): (r: string)
    ensures '\n' !in r
    ensures |r| >= 2 && r[0] == '{' && r[|r| - 1] == '}'
  {
    ['{'] + EncodeEntries(d) + ['}']
  }

  /** The switch in write_string's loop: appends one escaped character. */
  method AppendEscaped(output: string, c: char) returns (result: string)
    ensures result == output + EscapeChar(c)
  {
    match c {
      case '"' => result := output + ['\\', '"'];
      case '\t' => result := output + ['\\', 't'];
      case '\n' => result := output + ['\\', 'n'];
      case '\\' => result := output + ['\\', '\\'];
      case _ => result := output + [c];
    }
  }

  /** write_string: appends `value` quoted and escaped to `output`. */
  method WriteString(value: string, output: string) returns (result: string)
    ensures result == output + Quote(value)
  {
    result := output + ['"'];
    for i := 0 to |value|
      invariant result == output + ['"'] + Escape(value[..i])
    {
      result := AppendEscaped(result, value[i]);
      EscapeSnoc(value, i);
      Assoc(output + ['"'], Escape(value[..i]), EscapeChar(value[i]));
    }
    assert value[..|value|] == value;
    result := result + ['"'];
    Assoc(output, ['"'] + Escape(value), ['"']);
  }

  /** The body of write_json_str_dict's loop after the comma: key, colon, value. */
  method WriteEntry(e: Entry, output: string) returns (result: string)
    ensures result == output + EntryText(e)
  {
    result := WriteString(e.key, output);
    result := result + [':'];
    result := WriteString(e.value, result);
  }

  /** write_json_str_dict: appends the object text of `input` to `output`. */
  method WriteJsonStrDict(input: Dict, output: string) returns (result: string)
    ensures result == output + EncodeDict(input)
  {
    result := output + ['{'];
    var needsComma := false;
    for k := 0 to |input|
      invariant needsComma == (k > 0)
      invariant result == output + ['{'] + EncodeEntries(input[..k])
    {
      ghost var sep: string := if k == 0 then [] else [','];
      if needsComma {
        result := result + [','];
      } else {
        assert result + [] == result;
      }
      result := WriteEntry(input[k], result);
      needsComma := true;
      EncodeEntriesPrefix(input, k);
      Assoc(output + ['{'], EncodeEntries(input[..k]), sep);
      Assoc(output + ['{'], EncodeEntries(input[..k]) + sep, EntryText(input[k]));
    }
    assert input[..|input|] == input;
    result := result + ['}'];
    Assoc(output, ['{'], EncodeEntries(input));
    Assoc(output, ['{'] + EncodeEntries(input), ['}']);
  }

  // ---------------------------------------------------------------------
  // Reading: read_next_token and read_json_str_dict
  // ---------------------------------------------------------------------

  /** A token and the index just past it. */
  datatype Lexed = Lexed(token: string, next: nat)

  /** The character a backslash escape stands for; only four are known. */
  function Unescape(c: char): Option<char>
  {
    match c
    case 't' => Some('\t')
    case 'n' => Some('\n')
    case '\\' => Some('\\')
    case '"' => Some('"')
    case _ => None
  }

  /**
   * The rest of a string literal from index `j` (just after the opening quote
   * or inside the literal), `acc` holding what is decoded so far.
   */
  function ScanLiteral(input: string, j: nat, acc: string): (r: Option<Lexed>)
    ensures r.Some? ==> j < r.value.next <= |input|
    decreases |input| - j
  {
    if j >= |input| then None
    else if input[j] == '"' then Some(Lexed(acc, j + 1))
    else if input[j] == '\\' then
      if j + 1 >= |input| then None
      else match Unescape(input[j + 1])
        case None => None
        case Some(c) => ScanLiteral(input, j + 2, acc + [c])
    else ScanLiteral(input, j + 1, acc + [input[j]])
  }

  /** The token read_next_token finds from index `i`, if any. */
  function NextToken(input: string, i: nat): (r: Option<Lexed>)
    ensures r.Some? ==> i < r.value.next <= |input|
    decreases |input| - i
  {
    if i >= |input| then None
    else if input[i] == ' ' then NextToken(input, i + 1)
    else if input[i] != '"' then Some(Lexed([input[i]], i + 1))
    else ScanLiteral(input, i + 1, [])
  }

  /** read_next_token: `ok` tells whether a token was found. */
  method ReadNextToken(input: string, i0: nat) returns (ok: bool, i: nat, token: string)
    ensures ok == NextToken(input, i0).Some?
    ensures ok ==> NextToken(input, i0) == Some(Lexed(token, i))
  {
    token := [];
    i := i0;
    while i < |input|
      invariant token == []
      invariant NextToken(input, i) == NextToken(input, i0)
    {
      if input[i] == ' ' {
        i := i + 1;
        continue;
      }
      if input[i] != '"' {
        assert NextToken(input, i) == Some(Lexed([input[i]], i + 1));
        token := token + [input[i]];
        assert token == [input[i]];
        i := i + 1;
        return true, i, token;
      }
      i := i + 1;
      while i < |input|
        invariant ScanLiteral(input, i, token) == NextToken(input, i0)
        decreases |input| - i
      {
        if input[i] == '"' {
          i := i + 1;
          return true, i, token;
        }
        if input[i] == '\\' {
          i := i + 1;
          if i >= |input| {
            return false, i, token;
          }
          match input[i]
          case 't' => token := token + ['\t'];
          case 'n' => token := token + ['\n'];
          case '\\' => token := token + ['\\'];
          case '"' => token := token + ['"'];
          case _ => return false, i, token;
        } else {
          token := token + [input[i]];
        }
        i := i + 1;
      }
      return false, i, token;
    }
    return false, i, token;
  }

  /** What the reader reports and the map it leaves behind. */
  datatype Parsed = Parsed(ok: bool, dict: Dict)

  /** The `key : value` entries from index `i`, inserted into `d`. */
  function ParseEntries(input: string, i: nat, d: Dict): Parsed
    decreases |input| - i
  {
    match NextToken(input, i)
    case None => Parsed(false, d)
    case Some(k) =>
      match NextToken(input, k.next)
      case None => Parsed(false, d)
      case Some(c) =>
        if c.token != [':'] then Parsed(false, d)
        else match NextToken(input, c.next)
          case None => Parsed(false, d)
          case Some(v) => ParseSeparator(input, v.next, Insert(d, k.token, v.token))
  }

  /** After an entry: `,` reads another entry, `}` ends the object. */
  function ParseSeparator(input: string, i: nat, d: Dict): Parsed
    decreases |input| - i
  {
    match NextToken(input, i)
    case None => Parsed(false, d)
    case Some(s) =>
      if s.token == [','] then ParseEntries(input, s.next, d)
      else if s.token == ['}'] then Parsed(true, d)
      else Parsed(false, d)
  }

  /** read_json_str_dict applied to `input`, inserting into `d`. */
  function ParseDict(input: string, d: Dict): Parsed
  {
    match NextToken(input, 0)
    case None => Parsed(false, d)
    case Some(t) =>
      if t.token != ['{'] then Parsed(false, d) else ParseEntries(input, t.next, d)
  }

  /** read_json_str_dict: parses `input`, inserting what it reads into `output`. */
  method ReadJsonStrDict(input: string, output: Dict) returns (ok: bool, result: Dict)
    ensures Parsed(ok, result) == ParseDict(input, output)
  {
    result := output;
    var i: nat := 0;
    var token: string;
    ok, i, token := ReadNextToken(input, i);
    if !ok {
      return;
    }
    if token != ['{'] {
      return false, result;
    }
    while true
      invariant ParseEntries(input, i, result) == ParseDict(input, output)
      decreases |input| - i
    {
      var key, value: string;
      ghost var i1 := i;
      ok, i, key := ReadNextToken(input, i);
      if !ok {
        return;
      }
      ok, i, token := ReadNextToken(input, i);
      if !ok {
        return;
      }
      if token != [':'] {
        return false, result;
      }
      ok, i, value := ReadNextToken(input, i);
      if !ok {
        return;
      }
      result := Insert(result, key, value);
      ok, i, token := ReadNextToken(input, i);
      if !ok {
        return;
      }
      if token == [','] {
        continue;
      }
      if token == ['}'] {
        break;
      }
      return false, result;
    }
    return true, result;
  }

  // ---------------------------------------------------------------------
  // Properties of the lexer and the reader
  // ---------------------------------------------------------------------

  /** `t` occurs in `input` starting at index `i`. */
  predicate At(input: string, i: nat, t: string)
    decreases |t|
  {
    if |t| == 0 then i <= |input|
    else i < |input| && input[i] == t[0] && At(input, i + 1, t[1..])
  }

  lemma {:induction false} AtLength(input: string, i: nat, t: string)
    requires At(input, i, t)
    ensures i + |t| <= |input|
    decreases |t|
  {
    if |t| > 0 {
      AtLength(input, i + 1, t[1..]);
    }
  }

  lemma {:induction false} AtIndex(input: string, i: nat, t: string, x: nat)
    requires At(input, i, t) && x < |t|
    ensures i + x < |input|
    ensures input[i + x] == t[x]
    decreases x
  {
    if x > 0 {
      AtIndex(input, i + 1, t[1..], x - 1);
    }
  }

  lemma {:induction false} AtSplit(input: string, i: nat, a: string, b: string)
    requires At(input, i, a + b)
    ensures At(input, i, a) && At(input, i + |a|, b)
    decreases |a|
  {
    if |a| == 0 {
      assert a + b == b;
      AtLength(input, i, b);
    } else {
      assert (a + b)[0] == a[0] && (a + b)[1..] == a[1..] + b;
      AtSplit(input, i + 1, a[1..], b);
    }
  }

  /** A text occurs in any longer text right after what precedes it. */
  lemma {:induction false} AtAfter(a: string, b: string)
    ensures At(a + b, |a|, b)
    decreases |b|
  {
    if |b| > 0 {
      assert (a + b)[|a|] == b[0];
      assert (a + [b[0]]) + b[1..] == a + b;
      AtAfter(a + [b[0]], b[1..]);
    }
  }

  /** One character as write_string escapes it is decoded back by the lexer. */
  lemma ScanEscapedChar(input: string, j: nat, c: char, acc: string)
    requires At(input, j, EscapeChar(c))
    ensures ScanLiteral(input, j, acc) == ScanLiteral(input, j + |EscapeChar(c)|, acc + [c])
  {
    var e := EscapeChar(c);
    AtIndex(input, j, e, 0);
    if |e| == 2 {
      AtIndex(input, j, e, 1);
    }
  }

  /** A literal written by write_string is read back by the lexer. */
  lemma {:induction false} ScanEscaped(input: string, j: nat, s: string, acc: string)
    requires At(input, j, Escape(s) + ['"'])
    ensures ScanLiteral(input, j, acc) == Some(Lexed(acc + s, j + |Escape(s)| + 1))
    decreases |s|
  {
    if |s| == 0 {
      assert Escape(s) + ['"'] == ['"'];
      AtIndex(input, j, ['"'], 0);
      assert acc + s == acc;
    } else {
      var c := s[0];
      var e := EscapeChar(c);
      var t := Escape(s[1..]);
      assert Escape(s) + ['"'] == e + (t + ['"']);
      AtSplit(input, j, e, t + ['"']);
      ScanEscapedChar(input, j, c, acc);
      ScanEscaped(input, j + |e|, s[1..], acc + [c]);
      assert acc + [c] + s[1..] == acc + s;
    }
  }

  /** The token starting with the quote that write_string emits. */
  lemma QuotedToken(input: string, i: nat, s: string)
    requires At(input, i, Quote(s))
    ensures NextToken(input, i) == Some(Lexed(s, i + |Quote(s)|))
  {
    assert Quote(s) == ['"'] + (Escape(s) + ['"']);
    AtSplit(input, i, ['"'], Escape(s) + ['"']);
    AtIndex(input, i, ['"'], 0);
    ScanEscaped(input, i + 1, s, []);
    assert [] + s == s;
  }

  /** A punctuation character is a token of its own. */
  lemma PunctToken(input: string, i: nat, c: char)
    requires At(input, i, [c]) && c != ' ' && c != '"'
    ensures NextToken(input, i) == Some(Lexed([c], i + 1))
  {
    AtIndex(input, i, [c], 0);
  }

  /** The text of an entry splits into the quoted key, the colon and the quoted value. */
  lemma EntryParts(input: string, i: nat, e: Entry)
    requires At(input, i, EntryText(e))
    ensures At(input, i, Quote(e.key))
    ensures At(input, i + |Quote(e.key)|, [':'])
    ensures At(input, i + |Quote(e.key)| + 1, Quote(e.value))
    ensures |EntryText(e)| == |Quote(e.key)| + 1 + |Quote(e.value)|
  {
    var qk, qv := Quote(e.key), Quote(e.value);
    assert EntryText(e) == qk + ([':'] + qv);
    AtSplit(input, i, qk, [':'] + qv);
    AtSplit(input, i + |qk|, [':'], qv);
  }

  /** The three tokens of an entry written by write_json_str_dict. */
  lemma EntryTokens(input: string, i: nat, e: Entry)
    requires At(input, i, EntryText(e))
    ensures var i1 := i + |Quote(e.key)|;
      && NextToken(input, i) == Some(Lexed(e.key, i1))
      && NextToken(input, i1) == Some(Lexed([':'], i1 + 1))
      && NextToken(input, i1 + 1) == Some(Lexed(e.value, i + |EntryText(e)|))
  {
    EntryParts(input, i, e);
    var i1 := i + |Quote(e.key)|;
    QuotedToken(input, i, e.key);
    PunctToken(input, i1, ':');
    QuotedToken(input, i1 + 1, e.value);
  }

  /** One entry's three tokens lead the reader on to the separator. */
  lemma ParseEntriesStep(input: string, i: nat, d: Dict, k: string, v: string, i1: nat, i3: nat)
    requires NextToken(input, i) == Some(Lexed(k, i1))
    requires NextToken(input, i1) == Some(Lexed([':'], i1 + 1))
    requires NextToken(input, i1 + 1) == Some(Lexed(v, i3))
    ensures ParseEntries(input, i, d) == ParseSeparator(input, i3, Insert(d, k, v))
  {
  }

  /** A comma leads on to the next entry, a closing brace ends the object. */
  lemma SeparatorStep(input: string, i: nat, d: Dict, c: char)
    requires NextToken(input, i) == Some(Lexed([c], i + 1))
    ensures c == ',' ==> ParseSeparator(input, i, d) == ParseEntries(input, i + 1, d)
    ensures c == '}' ==> ParseSeparator(input, i, d) == Parsed(true, d)
  {
  }

  lemma SnocTail(a: seq<Entry>, d: seq<Entry>)
    requires |d| > 0
    ensures a + [d[0]] + d[1..] == a + d
    ensures |d| == 1 ==> a + [d[0]] == a + d
  {
    assert d == [d[0]] + d[1..];
  }

  /** Reading a written entry inserts it and goes on to the separator. */
  lemma EntryThenSeparator(input: string, i: nat, e: Entry, d: Dict)
    requires At(input, i, EntryText(e))
    ensures ParseEntries(input, i, d) ==
      ParseSeparator(input, i + |EntryText(e)|, Insert(d, e.key, e.value))
  {
    EntryTokens(input, i, e);
    ParseEntriesStep(input, i, d, e.key, e.value, i + |Quote(e.key)|, i + |EntryText(e)|);
  }

  /** A key larger than the last key of `acc` is appended by the reader's insert. */
  lemma InsertNext(acc: Dict, d: seq<Entry>)
    requires |d| > 0 && Increasing(acc + d)
    ensures Increasing(acc + [d[0]])
    ensures Insert(acc, d[0].key, d[0].value) == acc + [d[0]]
  {
    var e := d[0];
    forall x | x in acc ensures Less(x.key, e.key) {
      var j :| 0 <= j < |acc| && acc[j] == x;
      assert (acc + d)[j] == x && (acc + d)[|acc|] == e;
    }
    InsertLargest(acc, e.key, e.value);
  }

  /** The written entries of `d` start with the text of its first entry. */
  lemma EncodedHead(input: string, i: nat, d: seq<Entry>)
    requires |d| > 0
    requires At(input, i, EncodeEntries(d) + ['}'])
    ensures At(input, i, EntryText(d[0]))
    ensures |d| == 1 ==> At(input, i + |EntryText(d[0])|, ['}'])
    ensures |d| > 1 ==>
      At(input, i + |EntryText(d[0])|, [','] + (EncodeEntries(d[1..]) + ['}']))
  {
    var e := d[0];
    if |d| == 1 {
      AtSplit(input, i, EntryText(e), ['}']);
    } else {
      var t := EncodeEntries(d[1..]);
      assert EncodeEntries(d) == EntryText(e) + [','] + t;
      Assoc(EntryText(e) + [','], t, ['}']);
      Assoc(EntryText(e), [','], t + ['}']);
      Assoc([','], t, ['}']);
      AtSplit(input, i, EntryText(e), [','] + (t + ['}']));
    }
  }

  /**
   * Reading the entries of `d` as write_json_str_dict writes them, followed by
   * the closing brace, inserts exactly those entries after `acc`.
   */
  lemma {:induction false} ParseEncodedEntries(input: string, i: nat, acc: Dict, d: seq<Entry>)
    requires |d| > 0 && Increasing(acc + d)
    requires At(input, i, EncodeEntries(d) + ['}'])
    ensures ParseEntries(input, i, acc) == Parsed(true, acc + d)
    decreases |d|
  {
    EncodedHead(input, i, d);
    EntryThenSeparator(input, i, d[0], acc);
    InsertNext(acc, d);
    var i2 := i + |EntryText(d[0])|;
    var acc': Dict := acc + [d[0]];
    SnocTail(acc, d);
    if |d| == 1 {
      PunctToken(input, i2, '}');
      SeparatorStep(input, i2, acc', '}');
    } else {
      AtSplit(input, i2, [','], EncodeEntries(d[1..]) + ['}']);
      PunctToken(input, i2, ',');
      SeparatorStep(input, i2, acc', ',');
      ParseEncodedEntries(input, i2 + 1, acc', d[1..]);
    }
  }

  /**
   * Round trip: reading back what write_json_str_dict wrote for a non-empty
   * map, starting from an empty map, succeeds and yields that map.
   */
  lemma RoundTrip(d: Dict)
    requires |d| > 0
    ensures ParseDict(EncodeDict(d), []) == Parsed(true, d)
    ensures ToMap(ParseDict(EncodeDict(d), []).dict) == ToMap(d)
  {
    var text := EncodeDict(d);
    OpenBrace(d);
    assert ParseDict(text, []) == ParseEntries(text, 1, []);
    EmptyPrefix(d);
    ParseEncodedEntries(text, 1, [], d);
  }

  lemma EmptyPrefix(d: seq<Entry>)
    ensures [] + d == d
  {
  }

  /** The object text starts with its brace, followed by the entries. */
  lemma OpenBrace(d: Dict)
    ensures NextToken(EncodeDict(d), 0) == Some(Lexed(['{'], 1))
    ensures At(EncodeDict(d), 1, EncodeEntries(d) + ['}'])
  {
    var body := EncodeEntries(d) + ['}'];
    assert EncodeDict(d) == ['{'] + body;
    AtAfter(['{'], body);
  }

  /** A text occurs wherever its characters are found one by one. */
  lemma {:induction false} AtChars(input: string, i: nat, t: string)
    requires i + |t| <= |input|
    requires forall x :: 0 <= x < |t| ==> input[i + x] == t[x]
    ensures At(input, i, t)
    decreases |t|
  {
    if |t| > 0 {
      assert forall x :: 0 <= x < |t| - 1 ==> input[i + 1 + x] == t[1..][x] by {
        forall x | 0 <= x < |t| - 1 ensures input[i + 1 + x] == t[1..][x] {
          assert input[i + (x + 1)] == t[x + 1];
        }
      }
      AtChars(input, i + 1, t[1..]);
    }
  }

  /** Where the five pieces of a text lie in it. */
  lemma SpacedEntryParts(t: string, a: string, b: string, c: string, d: string, e: string)
    requires t == a + b + c + d + e
    ensures At(t, 0, a) && At(t, |a|, b) && At(t, |a| + |b|, c)
    ensures At(t, |a| + |b| + |c|, d) && At(t, |a| + |b| + |c| + |d|, e)
  {
    AtChars(t, 0, a);
    AtChars(t, |a|, b);
    AtChars(t, |a| + |b|, c);
    AtChars(t, |a| + |b| + |c|, d);
    AtChars(t, |a| + |b| + |c| + |d|, e);
  }

  /** The tokens of an object of one entry, spaced as in `{ "k": "v" }`. */
  lemma SpacedEntryTokens(t: string, k: string, v: string, i1: nat, i2: nat)
    requires i1 == 2 + |Quote(k)| && i2 == i1 + 2 + |Quote(v)|
    requires At(t, 0, "{ ") && At(t, 2, Quote(k))
    requires At(t, i1, ": ") && At(t, i1 + 2, Quote(v)) && At(t, i2, " }")
    ensures NextToken(t, 0) == Some(Lexed(['{'], 1))
    ensures NextToken(t, 1) == Some(Lexed(k, i1))
    ensures NextToken(t, i1) == Some(Lexed([':'], i1 + 1))
    ensures NextToken(t, i1 + 1) == Some(Lexed(v, i2))
    ensures NextToken(t, i2) == Some(Lexed(['}'], i2 + 2))
  {
    SpacedPunct(t, 0, '{', ' ');
    SpacedPunct(t, i1, ':', ' ');
    SpacedPunct(t, i2, ' ', '}');
    SkipSpaces(t, 1, 2);
    QuotedToken(t, 2, k);
    SkipSpaces(t, i1 + 1, i1 + 2);
    QuotedToken(t, i1 + 2, v);
    SkipSpaces(t, i2, i2 + 1);
  }

  /**
   * An object of one entry with a space after `{` and after `:` and before
   * `}` is read back as that entry.
   */
  lemma SpacedEntryRead(t: string, k: string, v: string)
    requires At(t, 0, "{ ") && At(t, 2, Quote(k))
    requires At(t, 2 + |Quote(k)|, ": ") && At(t, 4 + |Quote(k)|, Quote(v))
    requires At(t, 4 + |Quote(k)| + |Quote(v)|, " }")
    ensures ParseDict(t, []) == Parsed(true, Insert([], k, v))
  {
    var i1 := 2 + |Quote(k)|;
    var i2 := i1 + 2 + |Quote(v)|;
    SpacedEntryTokens(t, k, v, i1, i2);
    ParseEntriesStep(t, 1, [], k, v, i1, i2);
  }

  /** Two characters at `i`: each is a token of its own, unless a space. */
  lemma SpacedPunct(t: string, i: nat, x: char, y: char)
    requires At(t, i, [x, y])
    ensures i + 1 < |t| && t[i] == x && t[i + 1] == y
    ensures x != ' ' && x != '"' ==> NextToken(t, i) == Some(Lexed([x], i + 1))
    ensures y != ' ' && y != '"' ==> NextToken(t, i + 1) == Some(Lexed([y], i + 2))
  {
    AtIndex(t, i, [x, y], 0);
    AtIndex(t, i, [x, y], 1);
  }

  /** `{}`, what the writer emits for an empty map, is rejected by the reader. */
  lemma EmptyObjectRejected(d: Dict)
    ensures EncodeDict([]) == "{}"
    ensures !ParseDict("{}", d).ok
  {
    assert NextToken("{}", 0) == Some(Lexed("{", 1));
    assert NextToken("{}", 1) == Some(Lexed("}", 2));
    assert NextToken("{}", 2) == None;
  }

  /** Spaces before a token are skipped. */
  lemma {:induction false} SkipSpaces(input: string, i: nat, p: nat)
    requires i <= p <= |input|
    requires forall x :: i <= x < p ==> input[x] == ' '
    ensures NextToken(input, i) == NextToken(input, p)
    decreases p - i
  {
    if i < p {
      SkipSpaces(input, i + 1, p);
    }
  }

  /** Only spaces left: no token, and read_next_token reports failure. */
  lemma NoTokenAtEnd(input: string, i: nat)
    requires i <= |input|
    requires forall x :: i <= x < |input| ==> input[x] == ' '
    ensures NextToken(input, i) == None
  {
    SkipSpaces(input, i, |input|);
  }

  /** Characters a literal copies as they are: neither a quote nor a backslash. */
  predicate Plain(input: string, j: nat, p: nat)
    requires j <= p <= |input|
  {
    forall x :: j <= x < p ==> input[x] != '"' && input[x] != '\\'
  }

  /** A run of plain characters is copied into the token unchanged. */
  lemma {:induction false} ScanPlainRun(input: string, j: nat, p: nat, acc: string)
    requires j <= p <= |input| && Plain(input, j, p)
    ensures ScanLiteral(input, j, acc) == ScanLiteral(input, p, acc + input[j..p])
    decreases p - j
  {
    if j < p {
      ScanPlainRun(input, j + 1, p, acc + [input[j]]);
      assert acc + [input[j]] + input[j + 1..p] == acc + input[j..p];
    } else {
      assert acc + input[j..p] == acc;
    }
  }

  /**
   * The three ways a string literal fails: an escape other than the four
   * known ones, a backslash as the last character, and no closing quote.
   */
  lemma LiteralFailures(input: string, j: nat, p: nat, acc: string)
    requires j <= p <= |input| && Plain(input, j, p)
    ensures p + 1 < |input| && input[p] == '\\' && Unescape(input[p + 1]) == None
      ==> ScanLiteral(input, j, acc) == None
    ensures p + 1 == |input| && input[p] == '\\' ==> ScanLiteral(input, j, acc) == None
    ensures p == |input| ==> ScanLiteral(input, j, acc) == None
  {
    ScanPlainRun(input, j, p, acc);
  }

  /** Some key or value of the entries holds a NUL character. */
  predicate HoldsNul(d: seq<Entry>)
  {
    exists e :: e in d && ('\0' in e.key || '\0' in e.value)
  }

  /** write_string copies a NUL like any other character: the escaped text holds one exactly when the input does. */
  lemma {:induction false} EscapeNul(s: string)
    ensures '\0' in Escape(s) <==> '\0' in s
  {
    if |s| > 0 {
      assert s == [s[0]] + s[1..];
      assert '\0' in EscapeChar(s[0]) <==> s[0] == '\0';
      EscapeNul(s[1..]);
    }
  }

  /** The written object holds a NUL exactly when one of its keys or values does. */
  lemma {:induction false} EncodeEntriesNul(d: seq<Entry>)
    ensures '\0' in EncodeEntries(d) <==> HoldsNul(d)
  {
    if |d| > 0 {
      EscapeNul(d[0].key);
      EscapeNul(d[0].value);
      assert '\0' in EntryText(d[0]) <==> '\0' in d[0].key || '\0' in d[0].value;
      EncodeEntriesNul(d[1..]);
      assert d == [d[0]] + d[1..];
      assert HoldsNul(d) <==> '\0' in d[0].key || '\0' in d[0].value || HoldsNul(d[1..]);
    }
  }

  /**
   * write_string escapes only four characters: any other text, a carriage
   * return or another control character included, is copied raw between
   * the quotes.
   */
  lemma {:induction false} CopiedRaw(s: string)
    requires forall c :: c in s ==> c != '"' && c != '\t' && c != '\n' && c != '\\'
    ensures Escape(s) == s
  {
    if |s| > 0 {
      assert s[0] in s;
      assert forall c :: c in s[1..] ==> c in s;
      CopiedRaw(s[1..]);
    }
  }

  /** The four escapes decode to the characters write_string escapes. */
  lemma EscapesInvert(c: char)
    ensures |EscapeChar(c)| == 2 ==> EscapeChar(c)[0] == '\\' && Unescape(EscapeChar(c)[1]) == Some(c)
    ensures |EscapeChar(c)| == 1 ==> EscapeChar(c) == [c] && c != '"' && c != '\\'
  {
  }
}
