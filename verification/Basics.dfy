/** Small shared vocabulary: optional values and the canonical error codes of `errors.py`. */
module Basics {

  datatype Option<+T> = None | Some(value: T)

  /** The error codes that the modelled paths raise or classify. */
  datatype ErrorCode =
    | InternalError
    | InvalidRequest
    | AccountNotFound
    | NotFound
    | InvalidSymbol
    | StaleData
    | RateLimited
    | Timeout
    | InsufficientBalance
    | RiskLimitExceeded
    | SymbolNotAllowed
    | FilterViolation
    | OrderRejected
    | OrderExpired
    | OrderUnknown
    | OrderReconcileRequired

  datatype Result<+T> = Ok(value: T) | Err(error: ErrorCode)

  /** No element occurs twice. */
  ghost predicate Distinct<T>(s: seq<T>) {
    forall i, j :: 0 <= i < j < |s| ==> s[i] != s[j]
  }

  /** `kept` is what `all` holds at the places `at`, in order. */
  ghost predicate PickedAt<T>(all: seq<T>, kept: seq<T>, at: seq<nat>) {
    && |at| == |kept|
    && (forall i, j | 0 <= i < j < |at| :: at[i] < at[j])
    && (forall i | 0 <= i < |at| :: at[i] < |all| && kept[i] == all[at[i]])
  }

  /** ... and these are exactly the places of the chosen members. */
  ghost predicate PickedBy<T>(all: seq<T>, kept: seq<T>, at: seq<nat>, chosen: T -> bool) {
    PickedAt(all, kept, at) && forall n: nat | n < |all| :: n in at <==> chosen(all[n])
  }

  lemma PickedLonger<T>(less: seq<T>, last: T, kept: seq<T>, at: seq<nat>)
    requires PickedAt(less, kept, at)
    ensures PickedAt(less + [last], kept, at)
    ensures PickedAt(less + [last], kept + [last], at + [|less|])
    ensures |less| !in at
  {
  }

  lemma PlaceOfNext(at: seq<nat>, n: nat, k: nat)
    ensures k in at + [n] <==> k in at || k == n
  {
  }

  /** One more member of the list, chosen or not. */
  lemma PickNext<T>(less: seq<T>, last: T, kept: seq<T>, at: seq<nat>, chosen: T -> bool) returns (at': seq<nat>)
    requires PickedBy(less, kept, at, chosen)
    ensures PickedBy(less + [last], if chosen(last) then kept + [last] else kept, at', chosen)
  {
    PickedLonger(less, last, kept, at);
    at' := if chosen(last) then at + [|less|] else at;
    forall n: nat | n < |less + [last]| ensures n in at' <==> chosen((less + [last])[n]) {
      PlaceOfNext(at, |less|, n);
      if n < |less| {
        assert n in at <==> chosen(less[n]);
      }
    }
  }
}
