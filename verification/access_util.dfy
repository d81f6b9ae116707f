/** The `login_required` decorator of pythonsrc/util/access_util.py: a trusted
    proxy header names the caller, who must match exactly one user. */
module AccessUtil {
  import opened Seqs
  import opened ApiUtil

  const AtnHeader: string := "X-Forwarded-Email"
  const NotLoggedInText: string := "Not logged in. <p>The X-Forwarded-Email header is missing."

  datatype User = User(id: int, name: string, email: string)

  /** The outcome of a database read: the rows, or an exception raised by the query. */
  datatype Rows<T> = Rows(rows: seq<T>) | DbFailure

  /** Either the 401 answer, or the authenticated user and the wrapped handler's result. */
  datatype Gate<R> = Denied(response: Response) | Admitted(currentUser: User, result: R)

  /** Two characters that are the same letter up to ASCII case: equal, or
      one is a capital and the other its small letter. */
  predicate CaseEquivalent(c: char, d: char)
  {
    || c == d
    || ('A' <= c <= 'Z' && d as int == c as int + 32)
    || ('A' <= d <= 'Z' && c as int == d as int + 32)
  }

  /** ASCII lower-casing of one character. */
  function LowerChar(c: char): (d: char)
    ensures 'A' <= c <= 'Z' ==> d as int == c as int + 32
    ensures !('A' <= c <= 'Z') ==> d == c
    ensures !('A' <= d <= 'Z')
    ensures CaseEquivalent(c, d)
  {
    if 'A' <= c <= 'Z' then (c as int + 32) as char else c
  }

  /** ASCII lower-casing of a string, character by character. */
  function Lower(s: string): (t: string)
    ensures |t| == |s|
    ensures forall i :: 0 <= i < |s| ==> t[i] == LowerChar(s[i])
  {
    if |s| == 0 then "" else [LowerChar(s[0])] + Lower(s[1..])
  }

  /** A user matches when the lower-cased addresses are equal. */
  predicate EmailMatches(u: User, email: string)
  {
    Lower(u.email) == Lower(email)
  }

  /** The 401 answer for a missing or unknown caller. */
  function Unauthorised(): (r: Response)
    ensures r.status == 401
    ensures r.body == Text(NotLoggedInText)
  {
    Response(401, Text(NotLoggedInText))
  }

  /** `login_required` around `handler`. Any failure inside the try block
      (missing header, a failing query, zero or several matching users)
      becomes 401 and the handler is not run; otherwise the one matching user
      becomes the current user and the handler's result is returned as is,
      outside the try, so its own failures are not turned into 401. */
  function LoginRequired<R>(headers: map<string, string>, users: Rows<User>, handler: User -> R): (g: Gate<R>)
    ensures AtnHeader !in headers ==> g == Denied(Unauthorised())
    ensures users.DbFailure? ==> g == Denied(Unauthorised())
    ensures g.Denied? ==> g.response == Unauthorised()
    ensures g.Admitted? <==>
      && AtnHeader in headers
      && users.Rows?
      && |Filter((u: User) => EmailMatches(u, headers[AtnHeader]), users.rows)| == 1
    ensures g.Admitted? ==>
      && g.currentUser in users.rows
      && EmailMatches(g.currentUser, headers[AtnHeader])
      && g.result == handler(g.currentUser)
  {
    if AtnHeader !in headers then Denied(Unauthorised())
    else
      var email := headers[AtnHeader];
      match users
      case DbFailure => Denied(Unauthorised())
      case Rows(rows) =>
        var matching := Filter((u: User) => EmailMatches(u, email), rows);
        if |matching| == 1 then
          Admitted(matching[0], handler(matching[0]))
        else Denied(Unauthorised())
  }

  /** Exactly one user matching the header (ignoring case) is admitted and the
      handler runs for that user. */
  lemma UniqueMatchAdmitted<R>(headers: map<string, string>, rows: seq<User>, handler: User -> R, i: nat)
    requires AtnHeader in headers
    requires i < |rows| && EmailMatches(rows[i], headers[AtnHeader])
    requires forall j :: 0 <= j < |rows| && j != i ==> !EmailMatches(rows[j], headers[AtnHeader])
    ensures LoginRequired(headers, Rows(rows), handler) == Admitted(rows[i], handler(rows[i]))
  {
    FilterSingle((u: User) => EmailMatches(u, headers[AtnHeader]), rows, i);
  }

  /** Two users matching the header is as bad as none: the answer is 401. */
  lemma AmbiguousMatchDenied<R>(headers: map<string, string>, rows: seq<User>, handler: User -> R, i: nat, j: nat)
    requires AtnHeader in headers
    requires i < j < |rows|
    requires EmailMatches(rows[i], headers[AtnHeader]) && EmailMatches(rows[j], headers[AtnHeader])
    ensures LoginRequired(headers, Rows(rows), handler) == Denied(Unauthorised())
  {
    FilterTwo((u: User) => EmailMatches(u, headers[AtnHeader]), rows, i, j);
  }

  /** No user matching the header gives 401. */
  lemma NoMatchDenied<R>(headers: map<string, string>, rows: seq<User>, handler: User -> R)
    requires AtnHeader in headers
    requires forall j :: 0 <= j < |rows| ==> !EmailMatches(rows[j], headers[AtnHeader])
    ensures LoginRequired(headers, Rows(rows), handler) == Denied(Unauthorised())
  {
    FilterNone((u: User) => EmailMatches(u, headers[AtnHeader]), rows);
  }

  /** Two characters lower-case alike exactly when they are the same letter
      up to case. */
  lemma LowerCharAlike(c: char, d: char)
    ensures LowerChar(c) == LowerChar(d) <==> CaseEquivalent(c, d)
  {
  }

  /** Matching ignores ASCII case and nothing else: two addresses lower-case
      to the same string exactly when they have the same length and differ at
      most in the case of their letters. */
  lemma LowerIgnoresCase(a: string, b: string)
    ensures Lower(a) == Lower(b) <==>
      |a| == |b| && forall i :: 0 <= i < |a| ==> CaseEquivalent(a[i], b[i])
  {
    if Lower(a) == Lower(b) {
      LowerAlikeIsCaseEquivalent(a, b);
    } else if |a| == |b| {
      var la, lb := Lower(a), Lower(b);
      var i :| 0 <= i < |a| && la[i] != lb[i];
      LowerCharAlike(a[i], b[i]);
    }
  }

  /** Two addresses that lower-case alike agree letter by letter up to case. */
  lemma LowerAlikeIsCaseEquivalent(a: string, b: string)
    requires Lower(a) == Lower(b)
    ensures |a| == |b| && forall i :: 0 <= i < |a| ==> CaseEquivalent(a[i], b[i])
  {
    assert |a| == |Lower(a)| == |Lower(b)| == |b|;
    forall i | 0 <= i < |a|
      ensures CaseEquivalent(a[i], b[i])
    {
      assert Lower(a)[i] == Lower(b)[i];
      LowerCharAlike(a[i], b[i]);
    }
  }

  /** Lower-casing twice is lower-casing once. */
  lemma LowerIdempotent(s: string)
    ensures Lower(Lower(s)) == Lower(s)
  {
  }
}
