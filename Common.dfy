/**
 * Values shared by every part of the organization manager model: optional
 * values, the service error taxonomy, and the few helpers on strings that the
 * services rely on (case-insensitive e-mail comparison and the id ordering of
 * the organization index).
 */
module Common {

  /** Identifiers (organization, member, role, invitation ids, accept tokens) are opaque strings. */
  type Id = string

  /** A point in time, in seconds; the clock is always an explicit `now` argument. */
  type Time = int

  const SecondsPerDay: int := 86400

  datatype Option<+T> = None | Some(value: T)

  /** The exceptions the services raise, one constructor per exception class. */
  datatype Error =
    | NotFound                                  // ResourceNotFoundException
    | AccessDenied(message: string)             // AccessDeniedException
    | LastRole                                  // LastRoleException
    | InviteExpired(expiresAt: Time)            // InviteExpiredException
    | InviteRevoked(reason: Option<string>)     // InviteRevokedException
    | InviteAlreadyAccepted(acceptedAt: Time)   // InviteAlreadyAcceptedException
    | NullReference                             // NullPointerException on a missing value
    | DependencyFailure                         // BouncerException
    | InvalidLimit                              // IllegalArgumentException from Stream.limit

  datatype Result<+T> = Ok(value: T) | Err(error: Error)

  /** Outcome of an operation that returns nothing but may throw. */
  datatype Outcome = Pass | Fail(error: Error)

  /** A sequence models a Java Set when it holds no element twice. */
  predicate NoDup<T(==)>(s: seq<T>) {
    forall i, j :: 0 <= i < j < |s| ==> s[i] != s[j]
  }

  /** ASCII lower-casing; case folding outside ASCII is not modelled. */
  function LowerAscii(c: char): (d: char)
    ensures 'A' <= c <= 'Z' ==> 'a' <= d <= 'z'
    ensures !('A' <= c <= 'Z') ==> d == c
  {
    if 'A' <= c <= 'Z' then (c as int + 32) as char else c
  }

  /** String.equalsIgnoreCase, with ASCII case folding. */
  predicate EqualsIgnoreCase(a: string, b: string) {
    |a| == |b| && forall i :: 0 <= i < |a| ==> LowerAscii(a[i]) == LowerAscii(b[i])
  }

  /**
   * Lexicographic order on ids by character code: the ascending order in which
   * the organization index returns rows.
   */
  predicate Below(a: string, b: string)
    decreases |a|
  {
    if |a| == 0 then |b| > 0
    else if |b| == 0 then false
    else a[0] < b[0] || (a[0] == b[0] && Below(a[1..], b[1..]))
  }

  lemma {:induction false} BelowIrreflexive(a: string)
    ensures !Below(a, a)
    decreases |a|
  {
    if |a| > 0 {
      BelowIrreflexive(a[1..]);
    }
  }

  lemma {:induction false} BelowTransitive(a: string, b: string, c: string)
    requires Below(a, b) && Below(b, c)
    ensures Below(a, c)
    decreases |a|
  {
    if |a| > 0 && |b| > 0 && |c| > 0 && a[0] == b[0] && b[0] == c[0] {
      BelowTransitive(a[1..], b[1..], c[1..]);
    }
  }

  lemma BelowAsymmetric(a: string, b: string)
    requires Below(a, b)
    ensures !Below(b, a)
  {
    if Below(b, a) {
      BelowTransitive(a, b, a);
      BelowIrreflexive(a);
    }
  }
}
