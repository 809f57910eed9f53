/**
 * The token bookkeeping of the engine's main loop in cpp/alpaca.cpp: the
 * prompt-truncation loop, the `last_n_tokens` window and the generation loop
 * with its stop conditions. The model itself (evaluation, sampling,
 * detokenizing) is a set of uninterpreted functions.
 */
module Generation {
  import opened Wrappers
  import opened Request

  /** 2^64: size_t arithmetic wraps modulo this. */
  const U64: int := 0x1_0000_0000_0000_0000

  /** The end-of-text id the generation loop stops on. */
  const Eos: Token := 2

  /** An int converted to size_t. */
  function SizeT(x: int): (r: nat)
    ensures r < U64
  {
    x % U64
  }

  // ---------------------------------------------------------------------
  // Prompt truncation
  // ---------------------------------------------------------------------

  /** The truncation loop's condition `embd_inp.size() + n_predict > n_ctx`, in size_t. */
  predicate OverBudget(size: nat, nPredict: int, nCtx: nat)
  {
    SizeT(size + nPredict) > nCtx
  }

  /**
   * How many tokens the truncation loop removes from the front of a prompt
   * of `size` tokens, as written: `None` when it would erase from an empty
   * vector, which is undefined behaviour.
   */
  function TruncCountAsWritten(size: nat, nPredict: int, nCtx: nat): Option<nat>
  {
    if !OverBudget(size, nPredict, nCtx) then Some(0)
    else if size == 0 then None
    else match TruncCountAsWritten(size - 1, nPredict, nCtx)
      case Some(k) => Some(k + 1)
      case None => None
  }

  /** How many tokens the corrected loop removes: it also stops at the empty prompt. */
  function TruncCount(size: nat, nPredict: int, nCtx: nat): (k: nat)
    ensures k <= size
  {
    if size > 0 && OverBudget(size, nPredict, nCtx) then 1 + TruncCount(size - 1, nPredict, nCtx) else 0
  }

  /**
   * The loop removes tokens only while the prompt is over budget, and stops
   * once it is within budget or empty.
   */
  lemma {:induction false} TruncationStops(size: nat, nPredict: int, nCtx: nat)
    ensures var k := TruncCount(size, nPredict, nCtx);
      && (size - k == 0 || !OverBudget(size - k, nPredict, nCtx))
      && forall s :: size - k < s <= size ==> OverBudget(s, nPredict, nCtx)
  {
    if size > 0 && OverBudget(size, nPredict, nCtx) {
      TruncationStops(size - 1, nPredict, nCtx);
    }
  }

  /**
   * When `0 <= n_predict <= n_ctx` (and the sizes stay below 2^64), the
   * remaining prompt leaves room for `n_predict` tokens; in particular the
   * "Input exceeds maximal context length" check does not fire.
   */
  lemma TruncationFits(size: nat, nPredict: int, nCtx: nat)
    requires 0 <= nPredict <= nCtx
    requires size + nPredict < U64
    ensures size - TruncCount(size, nPredict, nCtx) + nPredict <= nCtx
  {
    TruncationStops(size, nPredict, nCtx);
  }

  /**
   * When `n_predict <= n_ctx` and the prompt has at least `-n_predict`
   * tokens (and the sizes stay below 2^64), the loop as written never
   * reaches the empty vector, so it agrees with the corrected loop and
   * `TruncationFits` holds of the code as written.
   */
  lemma {:induction false} TruncationDefined(size: nat, nPredict: int, nCtx: nat)
    requires nPredict <= nCtx
    requires 0 <= size + nPredict < U64
    ensures TruncCountAsWritten(size, nPredict, nCtx).Some?
  {
    if size > 0 && OverBudget(size, nPredict, nCtx) {
      TruncationDefined(size - 1, nPredict, nCtx);
    }
  }

  /** Wherever the loop as written is defined, the corrected loop agrees with it. */
  lemma {:induction false} TruncationAgrees(size: nat, nPredict: int, nCtx: nat)
    ensures TruncCountAsWritten(size, nPredict, nCtx).Some? ==>
      TruncCountAsWritten(size, nPredict, nCtx) == Some(TruncCount(size, nPredict, nCtx))
  {
    if size > 0 {
      TruncationAgrees(size - 1, nPredict, nCtx);
    }
  }

  /**
   * As written, a request whose `n_predict` exceeds `n_ctx` makes the loop
   * empty the prompt and then erase from the empty vector, whatever the
   * prompt.
   */
  lemma {:induction false} TruncationUndefined(size: nat, nPredict: int, nCtx: nat)
    requires nCtx < nPredict
    requires size + nPredict < U64
    ensures TruncCountAsWritten(size, nPredict, nCtx) == None
  {
    if size > 0 {
      TruncationUndefined(size - 1, nPredict, nCtx);
    }
  }

  /**
   * As written, a negative `n_predict` with fewer prompt tokens than
   * `-n_predict` wraps `size + n_predict` round to nearly 2^64 at every
   * size left, so the loop empties the prompt and erases from the empty
   * vector.
   */
  lemma {:induction false} TruncationUndefinedShort(size: nat, nPredict: int, nCtx: nat)
    requires nPredict < 0 && size < -nPredict
    requires nCtx - nPredict < U64
    ensures TruncCountAsWritten(size, nPredict, nCtx) == None
  {
    if size > 0 {
      TruncationUndefinedShort(size - 1, nPredict, nCtx);
    }
  }

  /**
   * A three-token prompt with `n_ctx` 512 and `n_predict` 513; and a
   * three-token prompt with `n_predict` -5, or an empty one with -1, which
   * size_t arithmetic turns into sizes near 2^64.
   */
  lemma TruncationCounterexample()
    ensures TruncCountAsWritten(3, 513, 512) == None
    ensures TruncCount(3, 513, 512) == 3
    ensures TruncCountAsWritten(3, -5, 512) == None
    ensures TruncCount(3, -5, 512) == 3
    ensures TruncCountAsWritten(0, -1, 512) == None
  {
    TruncationUndefined(3, 513, 512);
    TruncationUndefinedShort(3, -5, 512);
  }

  /** The corrected truncation loop: drops tokens from the front of `embd`. */
  method Truncate(embd: seq<Token>, nPredict: int, nCtx: nat) returns (rest: seq<Token>, truncated: nat)
    ensures truncated == TruncCount(|embd|, nPredict, nCtx)
    ensures rest == embd[truncated..]
  {
    rest := embd;
    truncated := 0;
    while |rest| > 0 && OverBudget(|rest|, nPredict, nCtx)
      invariant truncated <= |embd| && rest == embd[truncated..]
      invariant truncated + TruncCount(|rest|, nPredict, nCtx) == TruncCount(|embd|, nPredict, nCtx)
      decreases |rest|
    {
      rest := rest[1..];
      truncated := truncated + 1;
    }
  }

  // ---------------------------------------------------------------------
  // The last_n_tokens window
  // ---------------------------------------------------------------------

  /** `n` zero ids: the window as std::fill leaves it. */
  function Zeros(n: nat): (r: seq<Token>)
    ensures |r| == n && forall i :: 0 <= i < n ==> r[i] == 0
  {
    if n == 0 then [] else Zeros(n - 1) + [0]
  }

  /** The last `n` ids of `hist`, with zeros in front while `hist` is shorter. */
  function Window(n: nat, hist: seq<Token>): (w: seq<Token>)
    ensures |w| == n
  {
    (Zeros(n) + hist)[|hist|..]
  }

  /** One step of the window, corrected: a window of length 0 stays empty. */
  function Slide(w: seq<Token>, id: Token): (r: seq<Token>)
    ensures |r| == |w|
  {
    if |w| == 0 then w else w[1..] + [id]
  }

  /**
   * One step of the window as written: erase the first element, then append.
   * `None` when the window is empty, where erase is undefined behaviour.
   */
  function SlideAsWritten(w: seq<Token>, id: Token): Option<seq<Token>>
  {
    if |w| == 0 then None else Some(w[1..] + [id])
  }

  /** The window starts as all zeros. */
  lemma WindowStart(n: nat)
    ensures Window(n, []) == Zeros(n)
  {
    assert Zeros(n) + [] == Zeros(n);
  }

  /** Sliding keeps the window equal to the last `n` ids of the history. */
  lemma SlideWindow(n: nat, hist: seq<Token>, id: Token)
    ensures Slide(Window(n, hist), id) == Window(n, hist + [id])
  {
    var z := Zeros(n);
    if n > 0 {
      var w := Window(n, hist);
      var w' := Window(n, hist + [id]);
      forall i | 0 <= i < n
        ensures Slide(w, id)[i] == w'[i]
      {
        assert (z + hist + [id])[|hist| + 1 + i] == (z + (hist + [id]))[|hist| + 1 + i];
        if i < n - 1 {
          assert Slide(w, id)[i] == w[i + 1] == (z + hist)[|hist| + i + 1];
        }
      }
    }
  }

  /** Where the window is not empty, the step as written is the corrected step. */
  lemma SlideAgrees(w: seq<Token>, id: Token)
    requires |w| > 0
    ensures SlideAsWritten(w, id) == Some(Slide(w, id))
  {
  }

  /** With `repeat_last_n` 0 the step as written is undefined, whatever the history. */
  lemma SlideUndefined(hist: seq<Token>, id: Token)
    ensures SlideAsWritten(Window(0, hist), id) == None
  {
  }

  // ---------------------------------------------------------------------
  // The generation loop
  // ---------------------------------------------------------------------

  /**
   * The model as the engine sees it: llama_tokenize, whether llama_eval_t
   * succeeds on a context, llama_sample_top_p_top_k (given the settings,
   * the context evaluated so far and the window), vocab.id_to_token, and
   * the evaluation time llama_eval_t reports in total for a context.
   */
  datatype Llama = Llama(
    tokenize: Tokenizer,
    eval: seq<Token> -> bool,
    sample: (Params, seq<Token>, seq<Token>) -> Token,
    piece: Token -> string,
    micros: seq<Token> -> nat)

  /** The text of the sampled ids, appended one after another. */
  function Pieces(piece: Token -> string, ids: seq<Token>): string
  {
    if |ids| == 0 then [] else Pieces(piece, ids[..|ids| - 1]) + piece(ids[|ids| - 1])
  }

  /**
   * Where the generation loop ends: every sampled id, the context the model
   * has evaluated (whose length is `n_past`) and the window; or the
   * "Inference error" of a failed evaluation.
   */
  datatype GenResult = Generated(ids: seq<Token>, ctx: seq<Token>, window: seq<Token>) | EvalFailed

  /**
   * The generation loop from a state: while `n_past < n_ctx`, sample an id
   * and append its text; stop on id 2 or once `n_outputs >= n_predict` (in
   * size_t); otherwise evaluate it and slide it into the window.
   */
  function GenLoop(llama: Llama, p: Params, nCtx: nat, ctx: seq<Token>, ids: seq<Token>, window: seq<Token>): GenResult
    decreases nCtx - |ctx|
  {
    if |ctx| >= nCtx then Generated(ids, ctx, window)
    else
      var id := llama.sample(p, ctx, window);
      if id == Eos || |ids| + 1 >= SizeT(p.nPredict) then Generated(ids + [id], ctx, window)
      else if !llama.eval(ctx + [id]) then EvalFailed
      else GenLoop(llama, p, nCtx, ctx + [id], ids + [id], Slide(window, id))
  }

  /**
   * What the loop evaluates: the context grows by exactly the sampled ids,
   * in order, except that an id that stops the loop is not evaluated; the
   * context never grows past `n_ctx`.
   */
  lemma {:induction false} GenContext(llama: Llama, p: Params, nCtx: nat, ctx: seq<Token>, ids: seq<Token>, window: seq<Token>)
    requires |ctx| <= nCtx
    ensures var r := GenLoop(llama, p, nCtx, ctx, ids, window);
      r.Generated? ==>
        && |ctx| <= |r.ctx| <= nCtx
        && |ids| + |r.ctx| - |ctx| <= |r.ids| <= |ids| + |r.ctx| - |ctx| + 1
        && r.ids[..|ids|] == ids
        && r.ctx == ctx + r.ids[|ids|..|ids| + |r.ctx| - |ctx|]
    decreases nCtx - |ctx|
  {
    if |ctx| < nCtx {
      var id := llama.sample(p, ctx, window);
      if !(id == Eos || |ids| + 1 >= SizeT(p.nPredict)) && llama.eval(ctx + [id]) {
        GenContext(llama, p, nCtx, ctx + [id], ids + [id], Slide(window, id));
        var r := GenLoop(llama, p, nCtx, ctx + [id], ids + [id], Slide(window, id));
        if r.Generated? {
          ExtendByOne(ctx, ids, id, r.ids, r.ctx);
        }
      } else {
        assert ctx + [] == ctx;
      }
    } else {
      assert ctx + [] == ctx;
    }
  }

  /** One evaluated id, seen from the step before it. */
  lemma ExtendByOne(ctx: seq<Token>, ids: seq<Token>, id: Token, rids: seq<Token>, rctx: seq<Token>)
    requires |ctx| + 1 <= |rctx| && |ids| + |rctx| - |ctx| <= |rids|
    requires rids[..|ids| + 1] == ids + [id]
    requires rctx == (ctx + [id]) + rids[|ids| + 1..|ids| + |rctx| - |ctx|]
    ensures rids[..|ids|] == ids
    ensures rctx == ctx + rids[|ids|..|ids| + |rctx| - |ctx|]
  {
    var m, n := |ids|, |ids| + |rctx| - |ctx|;
    assert rids[..m] == rids[..m + 1][..m];
    assert rids[m] == rids[..m + 1][m] == id;
    assert rids[m..n] == [id] + rids[m + 1..n];
  }

  /**
   * Why the loop stopped: the context is full (`n_past == n_ctx`), or the
   * last sampled id is 2 or brought `n_outputs` up to `n_predict`; in the
   * second case that id was not evaluated.
   */
  lemma {:induction false} GenStop(llama: Llama, p: Params, nCtx: nat, ctx: seq<Token>, ids: seq<Token>, window: seq<Token>)
    requires |ctx| <= nCtx
    ensures var r := GenLoop(llama, p, nCtx, ctx, ids, window);
      r.Generated? ==>
        |r.ctx| == nCtx ||
        (&& 0 < |r.ids| == |ids| + |r.ctx| - |ctx| + 1
         && (r.ids[|r.ids| - 1] == Eos || |r.ids| >= SizeT(p.nPredict)))
    decreases nCtx - |ctx|
  {
    if |ctx| < nCtx {
      var id := llama.sample(p, ctx, window);
      if !(id == Eos || |ids| + 1 >= SizeT(p.nPredict)) && llama.eval(ctx + [id]) {
        GenStop(llama, p, nCtx, ctx + [id], ids + [id], Slide(window, id));
      }
    }
  }

  /**
   * The loop stops at the first stopping id: no id it evaluated was 2, and
   * each was sampled while `n_outputs` stayed below `n_predict`.
   */
  lemma {:induction false} GenFirstStop(llama: Llama, p: Params, nCtx: nat, ctx: seq<Token>, ids: seq<Token>, window: seq<Token>)
    requires |ctx| <= nCtx
    ensures var r := GenLoop(llama, p, nCtx, ctx, ids, window);
      r.Generated? ==>
        && |ctx| <= |r.ctx| && |ids| + |r.ctx| - |ctx| <= |r.ids|
        && forall j :: |ids| <= j < |ids| + |r.ctx| - |ctx| ==> r.ids[j] != Eos && j + 1 < SizeT(p.nPredict)
    decreases nCtx - |ctx|
  {
    var r := GenLoop(llama, p, nCtx, ctx, ids, window);
    GenContext(llama, p, nCtx, ctx, ids, window);
    if |ctx| < nCtx {
      var id := llama.sample(p, ctx, window);
      if !(id == Eos || |ids| + 1 >= SizeT(p.nPredict)) && llama.eval(ctx + [id]) {
        GenFirstStop(llama, p, nCtx, ctx + [id], ids + [id], Slide(window, id));
        GenContext(llama, p, nCtx, ctx + [id], ids + [id], Slide(window, id));
        if r.Generated? {
          assert r.ids[|ids|] == r.ids[..|ids| + 1][|ids|] == id;
          forall j | |ids| <= j < |ids| + |r.ctx| - |ctx|
            ensures r.ids[j] != Eos && j + 1 < SizeT(p.nPredict)
          {
            if j > |ids| {
              assert |ids + [id]| <= j < |ids + [id]| + |r.ctx| - |ctx + [id]|;
            }
          }
        }
      }
    }
  }

  /**
   * The window at the end holds the last `n` evaluated ids, zero-padded:
   * it keeps length `n`, starts from zeros and slides by one per evaluated id.
   */
  lemma {:induction false} GenWindow(llama: Llama, p: Params, nCtx: nat, ctx: seq<Token>, ids: seq<Token>, n: nat, hist: seq<Token>)
    requires |ctx| <= nCtx
    ensures var r := GenLoop(llama, p, nCtx, ctx, ids, Window(n, hist));
      r.Generated? ==> |ctx| <= |r.ctx| && r.window == Window(n, hist + r.ctx[|ctx|..])
    decreases nCtx - |ctx|
  {
    var r := GenLoop(llama, p, nCtx, ctx, ids, Window(n, hist));
    GenContext(llama, p, nCtx, ctx, ids, Window(n, hist));
    if |ctx| < nCtx {
      var id := llama.sample(p, ctx, Window(n, hist));
      if !(id == Eos || |ids| + 1 >= SizeT(p.nPredict)) && llama.eval(ctx + [id]) {
        SlideWindow(n, hist, id);
        GenWindow(llama, p, nCtx, ctx + [id], ids + [id], n, hist + [id]);
        if r.Generated? {
          GenContext(llama, p, nCtx, ctx + [id], ids + [id], Window(n, hist + [id]));
          assert r.ctx[|ctx|..] == [id] + r.ctx[|ctx| + 1..];
          assert hist + [id] + r.ctx[|ctx| + 1..] == hist + r.ctx[|ctx|..];
        }
      } else if r.Generated? {
        assert hist + r.ctx[|ctx|..] == hist;
      }
    } else {
      assert hist + r.ctx[|ctx|..] == hist;
    }
  }

  lemma PiecesSnoc(piece: Token -> string, ids: seq<Token>, id: Token)
    ensures Pieces(piece, ids + [id]) == Pieces(piece, ids) + piece(id)
  {
    assert (ids + [id])[..|ids|] == ids;
  }

  /** The generation loop of main, from the evaluated prompt and a window of `n` zeros. */
  method Generate(llama: Llama, p: Params, nCtx: nat, prompt: seq<Token>, n: nat)
    returns (r: GenResult, text: string)
    ensures r == GenLoop(llama, p, nCtx, prompt, [], Zeros(n))
    ensures r.Generated? ==> text == Pieces(llama.piece, r.ids)
  {
    var ctx := prompt;
    var window := Zeros(n);
    var ids: seq<Token> := [];
    text := "";
    while |ctx| < nCtx
      invariant GenLoop(llama, p, nCtx, ctx, ids, window) == GenLoop(llama, p, nCtx, prompt, [], Zeros(n))
      invariant text == Pieces(llama.piece, ids)
      decreases nCtx - |ctx|
    {
      var id := llama.sample(p, ctx, window);
      PiecesSnoc(llama.piece, ids, id);
      text := text + llama.piece(id);
      ids := ids + [id];
      if id == Eos || |ids| >= SizeT(p.nPredict) {
        return Generated(ids, ctx, window), text;
      }
      if !llama.eval(ctx + [id]) {
        return EvalFailed, text;
      }
      ctx := ctx + [id];
      if |window| > 0 {
        window := window[1..] + [id];
      }
    }
    return Generated(ids, ctx, window), text;
  }
}
