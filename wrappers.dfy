/** Optional values, results and the failures the roster pipeline can raise. */
module Wrappers {

  datatype Option<+T> = None | Some(value: T)

  /** Why an operation stopped; each case names the exception the Python code raises. */
  datatype Error =
    | NoneNotSearchable        // `"+" in None` / `"^" in None`: TypeError
    | NotAMember               // enum construction found no member: ValueError / ValidationError
    | MissingInternationalSlots // `Team(international_slots=None)`: ValidationError
    | ConcatenateNonString     // `" " + value` with a non-str value: TypeError
    | NotAnInteger             // `int(text)` rejected the text: ValueError
    | DelimiterGlyphInFont     // `raise_overlapping_glyphs`: ValueError
    | WidthIndexOutOfRange     // `widths[idx - first_character]`: IndexError
    | UnknownCharacterCode     // `characters[b]` / `widths[b]`: KeyError
    | WrongOperandCount        // `len(operands) != 2` / `x, y = operands`: ValueError
    | UnknownFontResource      // font name missing from the page's font resources: TypeError
    | BadOperand               // an operand of the wrong PDF type: TypeError / ValidationError
    | MissingOperand           // `operands[0]` on an empty operand list: IndexError
    | MissingFontOrBoundingBox // `TextObject.serialize` before font and box are set: ValueError
    | NoCurrentFont            // `self._font.size` / `.decode` while `_font` is None: AttributeError
    | NoBoundingBox            // `bounding_box.width` while the box is None: AttributeError
    | EmptyFontStack           // `Q` without a matching `q`: IndexError
    | ParseFailed              // the roster grammar or the record validation rejected a page
    | MissingReleaseDate       // no roster page at all: ValidationError on `release_date`

  datatype Result<+T> = Ok(value: T) | Err(error: Error)

  /**
    Threads a state through `xs` from left to right and stops at the first error, the
    way a Python loop that may raise does. Written "prefix, then last element" so that
    a loop over `xs[..i]` can keep it as its invariant.
  */
  function FoldResult<S, T>(s: S, xs: seq<T>, step: (S, T) -> Result<S>): Result<S>
    decreases |xs|
  {
    if xs == [] then Ok(s)
    else
      match FoldResult(s, xs[..|xs| - 1], step)
      case Err(e) => Err(e)
      case Ok(a) => step(a, xs[|xs| - 1])
  }

  /** Once the fold has failed, later elements cannot change the error. */
  lemma {:induction false} FoldResultErrSticky<S, T>(s: S, xs: seq<T>, ys: seq<T>, step: (S, T) -> Result<S>)
    requires FoldResult(s, xs, step).Err?
    ensures FoldResult(s, xs + ys, step) == FoldResult(s, xs, step)
    decreases |ys|
  {
    if ys == [] {
      assert xs + ys == xs;
    } else {
      var zs := xs + ys;
      assert zs[..|zs| - 1] == xs + ys[..|ys| - 1];
      FoldResultErrSticky(s, xs, ys[..|ys| - 1], step);
    }
  }

  /** One more element: the fold over `xs + [x]` is one step after the fold over `xs`. */
  lemma FoldResultSnoc<S, T>(s: S, xs: seq<T>, x: T, step: (S, T) -> Result<S>)
    ensures FoldResult(s, xs + [x], step)
            == match FoldResult(s, xs, step) case Err(e) => Err(e) case Ok(a) => step(a, x)
  {
    assert (xs + [x])[..|xs|] == xs;
  }

  /** A property every successful step keeps holds of the fold's result. */
  lemma {:induction false} FoldResultInvariant<S, T>(s: S, xs: seq<T>, step: (S, T) -> Result<S>, inv: S -> bool)
    requires inv(s)
    requires forall a, x :: inv(a) && step(a, x).Ok? ==> inv(step(a, x).value)
    ensures FoldResult(s, xs, step).Ok? ==> inv(FoldResult(s, xs, step).value)
    decreases |xs|
  {
    if xs != [] {
      FoldResultInvariant(s, xs[..|xs| - 1], step, inv);
    }
  }

  /** Applies `f` to each element in order, stopping at the first error. */
  function Collect<T, U>(xs: seq<T>, f: T -> Result<U>): Result<seq<U>>
    decreases |xs|
  {
    if xs == [] then Ok([])
    else match Collect(xs[..|xs| - 1], f)
      case Err(e) => Err(e)
      case Ok(us) =>
        match f(xs[|xs| - 1])
        case Err(e) => Err(e)
        case Ok(u) => Ok(us + [u])
  }

  /** `f` succeeds on every element of `xs`, and `us` are its results, in order. */
  ghost predicate AllOk<T, U>(xs: seq<T>, f: T -> Result<U>, us: seq<U>) {
    |us| == |xs| && forall k {:trigger f(xs[k])} :: 0 <= k < |xs| ==> f(xs[k]) == Ok(us[k])
  }

  /** Element `k` is the first one on which `f` fails, and it fails with `e`. */
  ghost predicate FirstErrAt<T, U>(xs: seq<T>, f: T -> Result<U>, k: nat, e: Error) {
    k < |xs| && (forall i {:trigger f(xs[i])} :: 0 <= i < k ==> f(xs[i]).Ok?) && f(xs[k]) == Err(e)
  }

  lemma AllOkSnoc<T, U>(xs: seq<T>, f: T -> Result<U>, us: seq<U>, x: T, u: U)
    requires AllOk(xs, f, us) && f(x) == Ok(u)
    ensures AllOk(xs + [x], f, us + [u])
  {
    forall k | 0 <= k < |xs| + 1
      ensures f((xs + [x])[k]) == Ok((us + [u])[k])
    {
      if k < |xs| {
        assert (xs + [x])[k] == xs[k] && (us + [u])[k] == us[k];
      }
    }
  }

  lemma AllOkThenErr<T, U>(xs: seq<T>, f: T -> Result<U>, us: seq<U>, x: T, e: Error)
    requires AllOk(xs, f, us) && f(x) == Err(e)
    ensures FirstErrAt(xs + [x], f, |xs|, e)
  {
    forall i | 0 <= i < |xs|
      ensures f((xs + [x])[i]).Ok?
    {
      assert (xs + [x])[i] == xs[i];
    }
  }

  lemma FirstErrAtExtend<T, U>(xs: seq<T>, ys: seq<T>, f: T -> Result<U>, k: nat, e: Error)
    requires FirstErrAt(xs, f, k, e)
    ensures FirstErrAt(xs + ys, f, k, e)
  {
    forall i | 0 <= i <= k
      ensures f((xs + ys)[i]) == f(xs[i])
    {
    }
  }

  /** `Collect` succeeds exactly with the results of `f` on every element. */
  lemma {:induction false} CollectAllOk<T, U>(xs: seq<T>, f: T -> Result<U>, us: seq<U>)
    ensures Collect(xs, f) == Ok(us) <==> AllOk(xs, f, us)
    decreases |xs|
  {
    if xs != [] {
      var n := |xs| - 1;
      if |us| == |xs| {
        assert us == us[..n] + [us[n]];
        assert AllOk(xs, f, us) <==> AllOk(xs[..n], f, us[..n]) && f(xs[n]) == Ok(us[n]) by {
          if AllOk(xs[..n], f, us[..n]) && f(xs[n]) == Ok(us[n]) {
            AllOkSnoc(xs[..n], f, us[..n], xs[n], us[n]);
            assert xs[..n] + [xs[n]] == xs;
          }
          if AllOk(xs, f, us) {
            forall k | 0 <= k < n
              ensures f(xs[..n][k]) == Ok(us[..n][k])
            {
              assert xs[..n][k] == xs[k];
            }
          }
        }
        CollectAllOk(xs[..n], f, us[..n]);
      } else if Collect(xs, f).Ok? {
        var vs := Collect(xs[..n], f).value;
        CollectAllOk(xs[..n], f, vs);
      }
    }
  }

  /** `Collect` fails with the error of the first element on which `f` fails. */
  lemma {:induction false} CollectFirstErrAt<T, U>(xs: seq<T>, f: T -> Result<U>, k: nat, e: Error)
    requires FirstErrAt(xs, f, k, e)
    ensures Collect(xs, f) == Err(e)
    decreases |xs|
  {
    var n := |xs| - 1;
    if k < n {
      assert FirstErrAt(xs[..n], f, k, e) by {
        forall i | 0 <= i <= k
          ensures f(xs[..n][i]) == f(xs[i])
        {
          assert xs[..n][i] == xs[i];
        }
      }
      CollectFirstErrAt(xs[..n], f, k, e);
    } else {
      var us := seq(n, i requires 0 <= i < n => f(xs[i]).value);
      assert AllOk(xs[..n], f, us) by {
        forall i | 0 <= i < n
          ensures f(xs[..n][i]) == Ok(us[i])
        {
          assert xs[..n][i] == xs[i];
        }
      }
      CollectAllOk(xs[..n], f, us);
    }
  }

  /** `Collect` depends only on the values `f` takes on the elements. */
  lemma {:induction false} CollectCongruent<T, U>(xs: seq<T>, f: T -> Result<U>, g: T -> Result<U>)
    requires forall k :: 0 <= k < |xs| ==> f(xs[k]) == g(xs[k])
    ensures Collect(xs, f) == Collect(xs, g)
    decreases |xs|
  {
    if xs != [] {
      var n := |xs| - 1;
      forall k | 0 <= k < n
        ensures f(xs[..n][k]) == g(xs[..n][k])
      {
        assert xs[..n][k] == xs[k];
      }
      CollectCongruent(xs[..n], f, g);
    }
  }

  /** A successful `Collect` holds, at each position, the result of `f` on that element. */
  lemma CollectAt<T, U>(xs: seq<T>, f: T -> Result<U>, us: seq<U>, j: nat)
    requires Collect(xs, f) == Ok(us) && j < |xs|
    ensures |us| == |xs| && f(xs[j]) == Ok(us[j])
  {
    CollectAllOk(xs, f, us);
  }
}
