/** The raw argument buffer both call paths build before calling a guest
    function (`call_wasm` and `WasmCallable::invoke`): parameters converted
    in order, an arity check, then zero padding up to the number of results.
    Value conversion (`to_raw`) is a parameter of the model. */
module CallArgs {
  import opened Wrappers
  import opened MachineInts

  /** `call_wasm` compares the number of converted values with the
      parameter count; `invoke` compares the number of arguments given. */
  datatype ArityCheck = Lenient | Strict

  datatype CallError<E> =
    | ConversionFailed(cause: E)
    | TooFewParameter(expected: nat, got: nat)

  function Min(a: nat, b: nat): nat { if a <= b then a else b }
  function Max(a: nat, b: nat): nat { if a <= b then b else a }

  /** `k` is the first of the first `n` argument pairs whose conversion fails. */
  ghost predicate FirstBadArg<T, A, R, E>(params: seq<T>, args: seq<A>, toRaw: (T, A) -> Result<R, E>, n: nat, k: int)
    requires n <= |params| && n <= |args|
  {
    0 <= k < n && toRaw(params[k], args[k]).Err? &&
    forall j :: 0 <= j < k ==> toRaw(params[j], args[j]).Ok?
  }

  /** The `zip` loop: convert the first `n` argument pairs in order, stopping
      at the first failure. */
  function ConvertPrefix<T, A, R, E>(params: seq<T>, args: seq<A>, toRaw: (T, A) -> Result<R, E>, n: nat): (r: Result<seq<R>, E>)
    requires n <= |params| && n <= |args|
    ensures r.Ok? <==> forall k :: 0 <= k < n ==> toRaw(params[k], args[k]).Ok?
    ensures r.Ok? ==> |r.value| == n && forall k :: 0 <= k < n ==> toRaw(params[k], args[k]) == Ok(r.value[k])
    ensures r.Err? ==> exists k :: FirstBadArg(params, args, toRaw, n, k) && r.error == toRaw(params[k], args[k]).error
  {
    if n == 0 then Ok([])
    else
      match ConvertPrefix(params, args, toRaw, n - 1)
      case Err(e) =>
        ghost var k :| FirstBadArg(params, args, toRaw, n - 1, k) && e == toRaw(params[k], args[k]).error;
        assert FirstBadArg(params, args, toRaw, n, k);
        Err(e)
      case Ok(vs) =>
        match toRaw(params[n - 1], args[n - 1])
        case Err(e) =>
          assert FirstBadArg(params, args, toRaw, n, n - 1);
          Err(e)
        case Ok(v) => Ok(vs + [v])
  }

  /** The buffer handed to the guest, or the error that stops the call.
      Conversion errors come first; then `Lenient` fails only when fewer
      arguments than parameters arrived, `Strict` whenever the counts
      differ; then the buffer is the converted parameters followed by zeros
      up to `max(|params|, |results|)` slots. */
  function ArgBuffer<T, A, R, E>(mode: ArityCheck, params: seq<T>, results: seq<T>, args: seq<A>,
                                 toRaw: (T, A) -> Result<R, E>, zero: R): (r: Result<seq<R>, CallError<E>>)
    ensures ConvertPrefix(params, args, toRaw, Min(|params|, |args|)).Err? ==>
              r == Err(ConversionFailed(ConvertPrefix(params, args, toRaw, Min(|params|, |args|)).error))
    ensures ConvertPrefix(params, args, toRaw, Min(|params|, |args|)).Ok? ==>
              (mode == Lenient ==> (r.Ok? <==> |args| >= |params|)) &&
              (mode == Strict ==> (r.Ok? <==> |args| == |params|))
    ensures r.Err? && r.error.TooFewParameter? ==>
              r.error.expected == |params| &&
              r.error.got == (if mode == Lenient then Min(|params|, |args|) else |args|)
    ensures r.Ok? ==>
              |r.value| == Max(|params|, |results|) && |args| >= |params| &&
              (forall k :: 0 <= k < |params| ==> toRaw(params[k], args[k]) == Ok(r.value[k])) &&
              (forall k :: |params| <= k < |r.value| ==> r.value[k] == zero)
  {
    var n := Min(|params|, |args|);
    match ConvertPrefix(params, args, toRaw, n)
    case Err(e) => Err(ConversionFailed(e))
    case Ok(vs) =>
      var got := if mode == Lenient then |vs| else |args|;
      if got != |params| then Err(TooFewParameter(|params|, got))
      else Ok(vs + seq(Max(|params|, |results|) - |vs|, _ => zero))
  }

  /** Whatever `invoke` accepts, `call_wasm` accepts with the same buffer. */
  lemma StrictImpliesLenient<T, A, R, E>(params: seq<T>, results: seq<T>, args: seq<A>,
                                         toRaw: (T, A) -> Result<R, E>, zero: R)
    requires ArgBuffer(Strict, params, results, args, toRaw, zero).Ok?
    ensures ArgBuffer(Lenient, params, results, args, toRaw, zero) == ArgBuffer(Strict, params, results, args, toRaw, zero)
  {
  }

  /** `call_wasm` ignores arguments beyond the parameters: dropping them
      changes nothing, while `invoke` rejects the longer list. */
  lemma ExtraArgumentsIgnored<T, A, R, E>(params: seq<T>, results: seq<T>, args: seq<A>, extra: seq<A>,
                                          toRaw: (T, A) -> Result<R, E>, zero: R)
    requires |args| == |params| && |extra| > 0
    ensures ArgBuffer(Lenient, params, results, args + extra, toRaw, zero) ==
            ArgBuffer(Lenient, params, results, args, toRaw, zero)
    ensures ConvertPrefix(params, args, toRaw, |params|).Ok? ==>
              ArgBuffer(Strict, params, results, args + extra, toRaw, zero) ==
              Err(TooFewParameter(|params|, |args| + |extra|))
  {
    var n := |params|;
    var all := args + extra;
    ConvertPrefixAgrees(params, args, all, toRaw, n);
  }

  /** Conversion of a prefix looks only at the first `n` arguments. */
  lemma {:induction false} ConvertPrefixAgrees<T, A, R, E>(params: seq<T>, a: seq<A>, b: seq<A>,
                                                           toRaw: (T, A) -> Result<R, E>, n: nat)
    requires n <= |params| && n <= |a| && n <= |b|
    requires a[..n] == b[..n]
    ensures ConvertPrefix(params, a, toRaw, n) == ConvertPrefix(params, b, toRaw, n)
  {
    if n > 0 {
      assert a[..n - 1] == b[..n - 1];
      assert a[n - 1] == a[..n][n - 1] == b[..n][n - 1] == b[n - 1];
      ConvertPrefixAgrees(params, a, b, toRaw, n - 1);
    }
  }

  /** The argument loop of `call_wasm` / `invoke`: push each converted
      parameter, check the arity, then push `ValRaw::i32(0)` until the
      buffer can hold every result. */
  method BuildArgBuffer<T, A, R, E>(mode: ArityCheck, params: seq<T>, results: seq<T>, args: seq<A>,
                                    toRaw: (T, A) -> Result<R, E>, zero: R)
    returns (r: Result<seq<R>, CallError<E>>)
    ensures r == ArgBuffer(mode, params, results, args, toRaw, zero)
  {
    var arr: seq<R> := [];
    var k := 0;
    var n := Min(|params|, |args|);
    while k < n
      invariant 0 <= k <= n
      invariant ConvertPrefix(params, args, toRaw, k) == Ok(arr)
    {
      var c := toRaw(params[k], args[k]);
      if c.Err? {
        PrefixErrorPersists(params, args, toRaw, k + 1, n);
        return Err(ConversionFailed(c.error));
      }
      arr := arr + [c.value];
      k := k + 1;
    }
    var got := if mode == Lenient then |arr| else |args|;
    if got != |params| {
      return Err(TooFewParameter(|params|, got));
    }
    while |arr| < |results|
      invariant |params| <= |arr| <= Max(|params|, |results|)
      invariant arr[..|params|] == ConvertPrefix(params, args, toRaw, n).value
      invariant forall j :: |params| <= j < |arr| ==> arr[j] == zero
      decreases |results| - |arr|
    {
      arr := arr + [zero];
    }
    assert arr == ConvertPrefix(params, args, toRaw, n).value + seq(Max(|params|, |results|) - |params|, _ => zero);
    return Ok(arr);
  }

  /** Once a prefix fails to convert, every longer prefix fails with the
      same error. */
  lemma {:induction false} PrefixErrorPersists<T, A, R, E>(params: seq<T>, args: seq<A>,
                                                           toRaw: (T, A) -> Result<R, E>, k: nat, n: nat)
    requires k <= n <= |params| && n <= |args|
    requires ConvertPrefix(params, args, toRaw, k).Err?
    ensures ConvertPrefix(params, args, toRaw, n) == ConvertPrefix(params, args, toRaw, k)
    decreases n - k
  {
    if k < n {
      PrefixErrorPersists(params, args, toRaw, k, n - 1);
    }
  }

  /** `epoch_timeout` arms a deadline only when it is at least 1. */
  function EpochDeadline(epochTimeout: u64): (d: Option<u64>)
    ensures d.Some? <==> epochTimeout >= 1
    ensures d.Some? ==> d.value == epochTimeout
  {
    if epochTimeout >= 1 then Some(epochTimeout) else None
  }
}
