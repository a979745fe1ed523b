/** The isolation policy: which failures isolate, and for how long. */
module Policy {
  import opened Text
  import opened BanTable
  import opened Wrappers

  predicate IsolatedCode(status: int) {
    status in {401, 402, 403, TOO_MANY}
  }

  /** classifyFailure. `vault` holds the normalised e-mails that own a stored cookie. */
  function ClassifyFailure(status: int, now: Clock, email: string, vault: set<string>): Option<Entry> {
    var e := Entry(status, "", "", email, "", "", now, 0, 0);
    if status == 401 then
      if email != "" && Norm(email) != "" && Norm(email) in vault
      then Some(e.(reason := "unauthorized_vault", resetAt := now + UNAUTHORIZED_SHORT))
      else Some(e.(reason := "unauthorized", resetAt := now + UNAUTHORIZED_LONG))
    else if status == 402 then Some(e.(reason := "payment_required", resetAt := now + PAYMENT))
    else if status == 403 then Some(e.(reason := "forbidden", resetAt := now + FORBIDDEN))
    else if status == TOO_MANY then Some(Normalize(e.(reason := "rate_limited_2h", resetAt := now + RATE_FIXED), now))
    else None
  }

  /** A report that carries the window its code earns, counted from `bannedAt`. */
  predicate Classified(e: Entry) {
    && e.bannedAt > 0 && e.failCount == 0
    && match e.status
       case 401 => e.resetAt == e.bannedAt + UNAUTHORIZED_SHORT || e.resetAt == e.bannedAt + UNAUTHORIZED_LONG
       case 402 => e.resetAt == e.bannedAt + PAYMENT
       case 403 => e.resetAt == e.bannedAt + FORBIDDEN
       case 429 => e.resetAt == e.bannedAt + RATE_FIXED && e.reason == "rate_limited_2h"
       case _ => false
  }

  /** Exactly the codes 401, 402, 403 and 429 classify. In nanoseconds from the
      classification: a 401 isolates for two hours if the account's cookie can be
      exchanged and for a day if not, a 402 for seven days, a 403 for a day, and a
      429 for two hours. */
  lemma ClassifyByCode(status: int, now: Clock, email: string, vault: set<string>)
    ensures var c := ClassifyFailure(status, now, email, vault);
            && (c.Some? <==> IsolatedCode(status)) && (IsolatedCode(status) <==> status in {401, 402, 403, 429})
            && (c.Some? ==>
                  && Classified(c.value) && now + RATE_FIXED <= c.value.resetAt <= now + PAYMENT
                  && c.value == Entry(status, c.value.reason, "", email, "", "", now, c.value.resetAt, 0))
    ensures var c := ClassifyFailure(status, now, email, vault);
            c.Some? ==>
              (c.value.resetAt - now, c.value.reason) ==
                if status == 401 && Norm(email) != "" && Norm(email) in vault
                then (7_200_000_000_000, "unauthorized_vault")
                else if status == 401 then (86_400_000_000_000, "unauthorized")
                else if status == 402 then (604_800_000_000_000, "payment_required")
                else if status == 403 then (86_400_000_000_000, "forbidden")
                else (7_200_000_000_000, "rate_limited_2h")
  {
    assert Norm("") == "";
  }

  /** The time an isolated code earns, in nanoseconds, and the reason it is given. */
  ghost predicate Earns(code: int, cookie: bool, span: int, reason: string) {
    (span, reason) ==
      if code == 401 && cookie then (7_200_000_000_000, "unauthorized_vault")
      else if code == 401 then (86_400_000_000_000, "unauthorized")
      else if code == 402 then (604_800_000_000_000, "payment_required")
      else if code == 403 then (86_400_000_000_000, "forbidden")
      else (7_200_000_000_000, "rate_limited_2h")
  }
}
