/** The `state` tokens of the booking listings and what each one admits. */
module States {
  import opened Domain
  import Text

  /** `BookingState`; UNKNOWN stands for every token that names no filter. */
  datatype BookingState = ALL | CURRENT | PAST | FUTURE | WAITING | REJECTED | UNKNOWN

  /** The enum constant's `toString()`. */
  function Name(s: BookingState): string {
    match s
    case ALL => "ALL"
    case CURRENT => "CURRENT"
    case PAST => "PAST"
    case FUTURE => "FUTURE"
    case WAITING => "WAITING"
    case REJECTED => "REJECTED"
    case UNKNOWN => "UNKNOWN"
  }

  /** `BookingState.values()`, in declaration order. */
  const Values: seq<BookingState> := [ALL, CURRENT, PAST, FUTURE, WAITING, REJECTED, UNKNOWN]

  /** The filter a token selects: the constant whose name is exactly the
      token, UNKNOWN when there is none (a blank token included). */
  function ParseState(token: string): (s: BookingState)
    ensures s != UNKNOWN ==> Name(s) == token
    ensures s == UNKNOWN <==> forall v :: v != UNKNOWN ==> Name(v) != token
  {
    if token == "ALL" then ALL
    else if token == "CURRENT" then CURRENT
    else if token == "PAST" then PAST
    else if token == "FUTURE" then FUTURE
    else if token == "WAITING" then WAITING
    else if token == "REJECTED" then REJECTED
    else UNKNOWN
  }

  /** A blank token never selects a filter. */
  lemma BlankIsUnknown(token: string)
    requires Text.IsBlank(token)
    ensures ParseState(token) == UNKNOWN
  {
    if |token| > 0 {
      assert Text.IsWhitespace(token[0]);
    }
  }

  /** The lookup loop of `getByUserId`/`getByOwnerId`: starts from UNKNOWN
      and, unless the token is blank, takes every constant whose name equals
      the token. */
  method ResolveState(token: string) returns (s: BookingState)
    ensures s == ParseState(token)
  {
    s := UNKNOWN;
    if !Text.IsBlank(token) {
      for k := 0 to |Values|
        invariant s == UNKNOWN || Name(s) == token
        invariant forall j :: 0 <= j < k && Values[j] != UNKNOWN ==> Name(Values[j]) == token ==> s == Values[j]
      {
        if Name(Values[k]) == token {
          s := Values[k];
        }
      }
      var p := ParseState(token);
      if p != UNKNOWN {
        var j :| 0 <= j < |Values| && Values[j] == p by {
          match p
          case ALL => assert Values[0] == p;
          case CURRENT => assert Values[1] == p;
          case PAST => assert Values[2] == p;
          case FUTURE => assert Values[3] == p;
          case WAITING => assert Values[4] == p;
          case REJECTED => assert Values[5] == p;
        }
      }
    } else {
      BlankIsUnknown(token);
    }
  }

  /** What each filter admits, relative to the instant `now` captured once per
      call. UNKNOWN admits nothing (the call fails instead). */
  predicate Admits(state: BookingState, b: Booking, now: int) {
    match state
    case ALL => true
    case CURRENT => b.start < now && b.end > now
    case PAST => b.end < now
    case FUTURE => b.start > now
    case WAITING => b.status == Waiting
    case REJECTED => b.status == Rejected
    case UNKNOWN => false
  }

  /** Whether the source asks the store for this filter in `start` order. */
  predicate OrderedByStart(state: BookingState) {
    state == ALL || state == CURRENT || state == PAST || state == FUTURE
  }
}
