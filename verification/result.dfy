/** Model of `ezr::result<T, E>` (include/result.hpp): a tri-state outcome that
    keeps BOTH a `T data` and an `E error` field next to a state byte
    `is_valid` (0 = error, 1 = success with warning, 2 = success).
    Every query and accessor branches on `is_valid` exactly as the header does;
    `EZR_ASSERT` becomes a `requires` clause. */
module EzrResult {

  /** `uint8_t`, the type of the state byte. */
  newtype uint8 = x: int | 0 <= x < 256

  /** `std::optional<T>`. */
  datatype Option<T> = None | Some(value: T)

  /** What default-initialisation leaves in the two payload fields of a result
      built by the private `result()` constructor: `T()`/`E()` for class types,
      an indeterminate value for scalars. The model takes them as given. */
  datatype Defaults<T, E> = Defaults(data: T, error: E)

  /** `ezr::ok<T>`: a wrapped value that converts into a successful result. */
  datatype OkWrapper<T> = OkWrapper(val: T)

  /** `ezr::err<T>`: a wrapped error that converts into a failed result. */
  datatype ErrWrapper<E> = ErrWrapper(error: E)

  /** The tri-state value a result stands for, as its users see it: a
      success, a success carrying a diagnostic, or a failure. */
  datatype Outcome<T, E> = Success(value: T) | Warning(value: T, diagnostic: E) | Failure(error: E)

  datatype Result<T, E> = Result(data: T, error: E, isValid: uint8)
  {
    /** The outcome the state byte selects: 0 is a failure holding `error`,
        1 a warning holding both fields, anything else a success holding
        `data`. */
    function View(): Outcome<T, E> {
      if isValid == 0 then Failure(error)
      else if isValid == 1 then Warning(data, error)
      else Success(data)
    }

    /** The three states the factories produce. */
    predicate WellFormed() { isValid <= 2 }

    /** `is_err()`: the state byte is zero. */
    function IsErr(): (b: bool)
      ensures b <==> View().Failure?
    {
      isValid == 0
    }

    /** `is_ok()`: any non-zero state byte, so a warning is still "ok". */
    function IsOk(): (b: bool)
      ensures b == !IsErr()
    {
      isValid != 0
    }

    /** `operator bool`: the same test as `is_ok()`. */
    function AsBool(): (b: bool)
      ensures b == IsOk()
    {
      isValid != 0
    }

    /** `has_warning()`: only the state byte 1. */
    function HasWarning(): (b: bool)
      ensures b ==> IsOk() && !IsErr()
    {
      isValid == 1
    }

    /** `to_optional()`: the value when the result is not an error, else empty;
        the error payload is discarded. */
    function ToOptional(): (o: Option<T>)
      ensures o.Some? <==> IsOk()
    {
      if isValid != 0 then Some(data) else None
    }

    /** `value()` and `operator*`: assert that the result is not an error. */
    function Value(): (v: T)
      requires IsOk()
      ensures ToOptional() == Some(v)
    {
      data
    }

    /** `err()`: asserts `!is_valid`, so it is refused on a Warn result too. */
    function Error(): (e: E)
      requires IsErr()
      ensures View() == Failure(e)
    {
      error
    }

    /** `value_or(def)`: never asserts. */
    function ValueOr(def: T): (v: T)
      ensures IsOk() ==> v == Value()
      ensures IsErr() ==> v == def
    {
      if isValid != 0 then data else def
    }

    /** `handle(valid_fn, invalid_fn)`: calls exactly one of the two functions,
        the first one for Ok and Warn. Both must return the same type `R`. */
    function Handle<R>(validFn: T -> R, invalidFn: E -> R): (h: R)
      ensures IsOk() ==> h == validFn(Value())
      ensures IsErr() ==> h == invalidFn(Error())
    {
      if isValid != 0 then validFn(data) else invalidFn(error)
    }

    /** `transform(valid_fn)` for a callable that returns a value: rewraps the
        mapped value with `ok`, so a warning is dropped; an error is passed on
        unchanged and the callable is not applied. `init` stands for the
        default-initialised fields of the new `result<R, E>`. */
    function Transform<R>(validFn: T -> R, init: Defaults<R, E>): (t: Result<R, E>)
      ensures IsOk() ==> t.isValid == 2 && !t.HasWarning() && t.Value() == validFn(Value())
      ensures IsErr() ==> t.IsErr() && t.Error() == Error()
    {
      if isValid != 0 then Result<R, E>.Ok(validFn(data), init)
      else Result<R, E>.Err(error, init)
    }

    /** `transform(valid_fn)` for a callable returning `void`: on Ok and Warn
        the callable runs for its effect only and the answer is the private
        `result()`, whose state byte is 0, so it reads as an error carrying the
        default error value; on Err the error is passed on. */
    function TransformVoid(init: Defaults<(), E>): (t: Result<(), E>)
      ensures t.IsErr()
      ensures IsOk() ==> t.Error() == init.error
      ensures IsErr() ==> t.Error() == Error()
    {
      if isValid != 0 then Result<(), E>.Blank(init)
      else Result<(), E>.Err(error, init)
    }

    /** The private `result()`: `is_valid(false)`, payload fields left at their
        defaults. */
    static function Blank(init: Defaults<T, E>): (r: Result<T, E>)
      ensures r.IsErr() && r.WellFormed()
      ensures r.Error() == init.error
    {
      Result(init.data, init.error, 0)
    }

    /** `result::ok(value)`: the blank result with `data` then `is_valid`
        assigned. */
    static function Ok(value: T, init: Defaults<T, E>): (r: Result<T, E>)
      ensures r.WellFormed()
      ensures r.IsOk() && r.AsBool() && !r.HasWarning() && !r.IsErr()
      ensures r.Value() == value
      ensures r.View() == Success(value)
    {
      Blank(init).(data := value).(isValid := 2)
    }

    /** `result::warn(value, error)`: both payloads are stored, but because
        `err()` asserts `!is_valid` the diagnostic cannot be read back. */
    static function Warn(value: T, error: E, init: Defaults<T, E>): (r: Result<T, E>)
      ensures r.WellFormed()
      ensures r.IsOk() && r.AsBool() && r.HasWarning() && !r.IsErr()
      ensures r.Value() == value
      ensures r.View() == Warning(value, error)
    {
      Blank(init).(data := value).(isValid := 1).(error := error)
    }

    /** `result::err(error)`: the blank result with `error` then `is_valid`
        assigned. */
    static function Err(error: E, init: Defaults<T, E>): (r: Result<T, E>)
      ensures r.WellFormed()
      ensures r.IsErr() && !r.IsOk() && !r.AsBool() && !r.HasWarning()
      ensures r.Error() == error
      ensures r.View() == Failure(error)
    {
      Blank(init).(error := error).(isValid := 0)
    }

    /** `result(ezr::ok<T>&&)`: the converting constructor from the ok wrapper. */
    static function FromOk(w: OkWrapper<T>, init: Defaults<T, E>): (r: Result<T, E>)
      ensures r.WellFormed()
      ensures r.IsOk() && !r.HasWarning() && r.Value() == w.val
    {
      Blank(init).(isValid := 2).(data := w.val)
    }

    /** `result(ezr::err<E>&&)`: the converting constructor from the err wrapper. */
    static function FromErr(w: ErrWrapper<E>, init: Defaults<T, E>): (r: Result<T, E>)
      ensures r.WellFormed()
      ensures r.IsErr() && r.Error() == w.error
    {
      Blank(init).(isValid := 0).(error := w.error)
    }
  }

  /** What each state answers to the four queries; for every state byte the
      queries agree with each other. */
  lemma QueriesByState<T, E>(r: Result<T, E>)
    ensures r.IsOk() == r.AsBool() == !r.IsErr()
    ensures r.HasWarning() ==> r.IsOk()
    ensures r.isValid == 0 ==> r.IsErr() && !r.HasWarning()
    ensures r.isValid == 1 ==> r.IsOk() && r.HasWarning()
    ensures r.isValid == 2 ==> r.IsOk() && !r.HasWarning()
  {
  }

  /** The converting constructors build the same results as the factories. */
  lemma WrappersMatchFactories<T, E>(x: T, e: E, init: Defaults<T, E>)
    ensures Result.FromOk(OkWrapper(x), init) == Result.Ok(x, init)
    ensures Result.FromErr(ErrWrapper(e), init) == Result.Err(e, init)
  {
  }

  /** `value_or` agrees with `to_optional` and never needs the assertion. */
  lemma ValueOrViaOptional<T, E>(r: Result<T, E>, def: T)
    ensures r.ValueOr(def) == match r.ToOptional() case Some(v) => v case None => def
  {
  }

  /** The diagnostic of a Warn result is unobservable: two Warn results that
      differ only in their error answer every query, accessor and combinator
      alike. */
  lemma WarnDiagnosticUnobservable<T, E, R>(x: T, e1: E, e2: E, init: Defaults<T, E>,
                                             def: T, f: T -> R, g: E -> R, initR: Defaults<R, E>)
    ensures var w1, w2 := Result.Warn(x, e1, init), Result.Warn(x, e2, init);
      w1.IsOk() == w2.IsOk() && w1.IsErr() == w2.IsErr() && w1.HasWarning() == w2.HasWarning() &&
      w1.AsBool() == w2.AsBool() && w1.Value() == w2.Value() && w1.ValueOr(def) == w2.ValueOr(def) &&
      w1.ToOptional() == w2.ToOptional() && w1.Handle(f, g) == w2.Handle(f, g) &&
      w1.Transform(f, initR) == w2.Transform(f, initR)
  {
  }

  /** `handle` takes the value path for Ok and Warn and the error path for Err;
      the unused function has no influence on the answer. */
  lemma HandleCallsOne<T, E, R>(x: T, e: E, init: Defaults<T, E>, f1: T -> R, f2: T -> R, g1: E -> R, g2: E -> R)
    ensures Result.Ok(x, init).Handle(f1, g1) == f1(x) == Result.Ok(x, init).Handle(f1, g2)
    ensures Result.Warn(x, e, init).Handle(f1, g1) == f1(x) == Result.Warn(x, e, init).Handle(f1, g2)
    ensures Result.Err(e, init).Handle(f1, g1) == g1(e) == Result.Err(e, init).Handle(f2, g1)
  {
  }

  /** Mapping through Warn gives the same result as mapping through Ok: the
      warning is dropped. */
  lemma TransformDropsWarning<T, E, R>(x: T, e: E, init: Defaults<T, E>, f: T -> R, initR: Defaults<R, E>)
    ensures Result.Warn(x, e, init).Transform(f, initR) == Result.Ok(x, init).Transform(f, initR)
    ensures Result.Warn(x, e, init).Transform(f, initR) == Result<R, E>.Ok(f(x), initR)
  {
  }

  /** An error short-circuits `transform`: the answer is the same whatever the
      callable, and it is `err` of the original error. */
  lemma TransformSkipsOnError<T, E, R>(e: E, init: Defaults<T, E>, f1: T -> R, f2: T -> R, initR: Defaults<R, E>)
    ensures Result.Err(e, init).Transform(f1, initR) == Result.Err(e, init).Transform(f2, initR)
    ensures Result.Err(e, init).Transform(f1, initR) == Result<R, E>.Err(e, initR)
  {
  }

  /** Functor laws: mapping the identity over an Ok result gives it back, and
      two successive transforms equal one transform by the composition. */
  lemma TransformLaws<T, E, R, S>(r: Result<T, E>, x: T, init: Defaults<T, E>,
                                  f: T -> R, g: R -> S, initR: Defaults<R, E>, initS: Defaults<S, E>)
    ensures Result.Ok(x, init).Transform(y => y, init) == Result.Ok(x, init)
    ensures r.Transform(f, initR).Transform(g, initS) == r.Transform(y => g(f(y)), initS)
  {
  }
}
