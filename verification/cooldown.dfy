/** The adjudicator's rate limit, `AI::check_cooldown`, identical in argue-rust/src/model.rs
    and backend/src/model.rs. The monotonic clock `Instant::now()` becomes a parameter `now`,
    a number of whole seconds. */
module Cooldown {
  import Decimal

  /** `AI`: the instant until which requests are refused, and the configured pause. */
  datatype Ai = Ai(cooldownUntil: nat, maxCooldown: nat)

  datatype Check = Ready | Refused(message: string)

  /** `GameState::new`: the timer starts expired at the creation instant. */
  function NewAi(now: nat, maxCooldown: nat): (ai: Ai)
    ensures ai.maxCooldown == maxCooldown
    ensures CheckCooldown(ai, now).1.Ready?
  {
    Ai(now, maxCooldown)
  }

  /** `check_cooldown`: refuse while the timer runs (telling how many seconds are left);
      otherwise start a new pause of `maxCooldown` seconds from `now`. */
  function CheckCooldown(ai: Ai, now: nat): (r: (Ai, Check))
    ensures r.1.Ready? <==> ai.cooldownUntil <= now
    ensures r.1.Ready? ==> r.0 == ai.(cooldownUntil := now + ai.maxCooldown)
    ensures r.1.Refused? ==> r.0 == ai
    ensures r.0.maxCooldown == ai.maxCooldown
  {
    if ai.cooldownUntil > now then
      (ai, Refused(RefusalMessage(ai.cooldownUntil - now)))
    else
      (ai.(cooldownUntil := now + ai.maxCooldown), Ready)
  }

  /** The refusal text, with the remaining whole seconds. */
  function RefusalMessage(seconds: nat): string {
    "AI is on cooldown for the next " + Decimal.NatToString(seconds) + " second(s)."
  }

  /** After an accepted check at `now`, the next check is accepted exactly from
      `now + maxCooldown` on, whatever happened in between with refused checks. */
  lemma CooldownWindow(ai: Ai, now: nat, later: nat)
    requires CheckCooldown(ai, now).1.Ready? && now <= later
    ensures var ai1 := CheckCooldown(ai, now).0;
      CheckCooldown(ai1, later).1.Ready? <==> later >= now + ai.maxCooldown
  {
  }

  /** A refused check is invisible to every later check. */
  lemma RefusalChangesNothing(ai: Ai, now: nat, later: nat)
    requires CheckCooldown(ai, now).1.Refused?
    ensures CheckCooldown(CheckCooldown(ai, now).0, later) == CheckCooldown(ai, later)
  {
  }
}
