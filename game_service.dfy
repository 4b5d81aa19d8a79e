/** The experience and badge rules of server/services/gameService.js
    (`handleUserAction`): every care action gives 15 XP, the level follows the
    XP, and badges are unlocked once each. The local hour and the count of
    the user's water actions are inputs. */
module GameService {
  import opened Wrappers
  import opened Models

  const XP_GAIN: int := 15

  const GREEN_THUMB: string := "GREEN_THUMB"
  const SAVER: string := "SAVER"
  const FIRST_DROP: string := "FIRST_DROP"
  const NIGHT_OWL: string := "NIGHT_OWL"
  const VETERAN: string := "VETERAN"

  /** The five badge codes are different strings. */
  lemma CodesDistinct()
    ensures GREEN_THUMB != SAVER && GREEN_THUMB != FIRST_DROP && GREEN_THUMB != NIGHT_OWL && GREEN_THUMB != VETERAN
    ensures SAVER != FIRST_DROP && SAVER != NIGHT_OWL && SAVER != VETERAN
    ensures FIRST_DROP != NIGHT_OWL && FIRST_DROP != VETERAN
    ensures NIGHT_OWL != VETERAN
  {
    assert |GREEN_THUMB| == 11 && |SAVER| == 5 && |FIRST_DROP| == 10 && |NIGHT_OWL| == 9 && |VETERAN| == 7;
  }

  /** What `unlockedBadges` reports for a badge. */
  datatype Award = Award(name: string, desc: string)

  function AwardOf(code: string): Award {
    if code == GREEN_THUMB then Award("Pollice Verde", "Raggiunto il livello 5!")
    else if code == SAVER then Award("Soccorritore", "Hai salvato una pianta critica!")
    else if code == FIRST_DROP then Award("Prima Goccia", "Hai curato la tua prima pianta.")
    else if code == NIGHT_OWL then Award("Gufo Notturno", "Cura notturna effettuata.")
    else Award("Veterano", "20 Innaffiature completate!")
  }

  /** `Math.floor(xp / 100) + 1`. */
  function LevelFor(xp: int): int { xp / 100 + 1 }

  predicate IsNight(hour: int) { hour >= 22 || hour < 5 }

  /** The badges the action qualifies for, in the order they are tried. */
  function Candidates(levelUpTo: Option<int>, wasCritical: bool, hour: int, actionCount: int): (c: seq<string>)
    ensures FIRST_DROP in c
    ensures GREEN_THUMB in c <==> levelUpTo.Some? && levelUpTo.value >= 5
    ensures SAVER in c <==> wasCritical
    ensures NIGHT_OWL in c <==> IsNight(hour)
    ensures VETERAN in c <==> actionCount >= 20
    ensures Distinct(c)
  {
    CodesDistinct();
    (if levelUpTo.Some? && levelUpTo.value >= 5 then [GREEN_THUMB] else [])
    + (if wasCritical then [SAVER] else [])
    + [FIRST_DROP]
    + (if IsNight(hour) then [NIGHT_OWL] else [])
    + (if actionCount >= 20 then [VETERAN] else [])
  }

  ghost predicate Distinct<T>(s: seq<T>) {
    forall i, j :: 0 <= i < j < |s| ==> s[i] != s[j]
  }

  /** `unlockBadge` for each code in turn: the codes not yet held are pushed
      onto `held` and reported. */
  function UnlockAll(held: seq<string>, codes: seq<string>): (r: (seq<string>, seq<string>))
    ensures r.0 == held + r.1
    ensures forall c :: c in r.1 <==> c in codes && c !in held
    ensures Distinct(held) ==> Distinct(r.0)
  {
    if codes == [] then (held, [])
    else
      var c := codes[|codes| - 1];
      var (h, u) := UnlockAll(held, codes[..|codes| - 1]);
      assert forall x :: x in codes <==> x in codes[..|codes| - 1] || x == c;
      if c in h then (h, u) else (h + [c], u + [c])
  }

  lemma UnlockAllSnoc(held: seq<string>, codes: seq<string>, c: string)
    ensures UnlockAll(held, codes + [c]) ==
      var (h, u) := UnlockAll(held, codes);
      if c in h then (h, u) else (h + [c], u + [c])
  {
    assert (codes + [c])[..|codes|] == codes;
  }

  /** `[...new Set(badges)]`: the first occurrence of each code, in order. */
  function Dedup(s: seq<string>): (r: seq<string>)
    ensures Distinct(r)
    ensures forall x :: x in r <==> x in s
    ensures Distinct(s) ==> r == s
  {
    if s == [] then []
    else
      var p := Dedup(s[..|s| - 1]);
      var x := s[|s| - 1];
      assert forall y :: y in s <==> y in s[..|s| - 1] || y == x;
      if x in p then p else p + [x]
  }

  /** What the action returns about the user. */
  datatype ActionResult = ActionResult(unlockedBadges: seq<Award>, newLevel: Option<int>)

  function Awards(codes: seq<string>): (r: seq<Award>)
    ensures |r| == |codes|
    ensures forall i :: 0 <= i < |codes| ==> r[i] == AwardOf(codes[i])
  {
    seq(|codes|, i requires 0 <= i < |codes| => AwardOf(codes[i]))
  }

  /** The level reached when it rises. */
  function LevelUp(oldLevel: int, newXp: int): (r: Option<int>)
    ensures r.Some? <==> LevelFor(newXp) > oldLevel
    ensures r.Some? ==> r.value == LevelFor(newXp)
  {
    if LevelFor(newXp) > oldLevel then Some(LevelFor(newXp)) else None
  }

  /** Every badge the rules hand out is held afterwards, held badges stay, no
      badge is held twice, and only badges not held before are reported. */
  lemma BadgeRules(held: seq<string>, levelUpTo: Option<int>, wasCritical: bool, hour: int, actionCount: int)
    ensures var (h, u) := UnlockAll(held, Candidates(levelUpTo, wasCritical, hour, actionCount));
      var after := Dedup(h);
      && Distinct(after)
      && FIRST_DROP in after
      && (SAVER in after <==> wasCritical || SAVER in held)
      && (NIGHT_OWL in after <==> IsNight(hour) || NIGHT_OWL in held)
      && (VETERAN in after <==> actionCount >= 20 || VETERAN in held)
      && (GREEN_THUMB in after <==> (levelUpTo.Some? && levelUpTo.value >= 5) || GREEN_THUMB in held)
      && (forall c :: c in held ==> c in after)
      && (forall c :: c in u ==> c !in held)
  {
    var cands := Candidates(levelUpTo, wasCritical, hour, actionCount);
    var (h, u) := UnlockAll(held, cands);
    var after := Dedup(h);
    assert h == held + u;
    assert forall c :: c in after <==> c in held || c in cands;
  }

  /** `handleUserAction`. A guest, an empty id or an unknown user yields
      `None` and changes nothing; otherwise XP grows by 15, the level rises
      to `floor(xp / 100) + 1` when that is higher, and the qualifying badges
      are unlocked. */
  method HandleUserAction(userId: string, user: User?, wasCritical: bool, hour: int, actionCount: int)
      returns (r: Option<ActionResult>)
    modifies user
    ensures r.Some? <==> userId != "" && userId != "guest" && user != null
    ensures r == None && user != null ==> unchanged(user)
    ensures r.Some? ==>
      && user.xp == old(user.xp) + XP_GAIN
      && user.adoptedTrees == old(user.adoptedTrees)
      && r.value.newLevel == LevelUp(old(user.level), user.xp)
      && user.level == (if r.value.newLevel.Some? then r.value.newLevel.value else old(user.level))
      && var (h, u) := UnlockAll(old(user.badges), Candidates(r.value.newLevel, wasCritical, hour, actionCount));
         user.badges == Dedup(h) && r.value.unlockedBadges == Awards(u)
  {
    if userId == "" || userId == "guest" {
      return None;
    }
    if user == null {
      return None;
    }
    user.xp := user.xp + XP_GAIN;
    var newLevel := LevelFor(user.xp);
    var levelUpOccurred := false;
    if newLevel > user.level {
      user.level := newLevel;
      levelUpOccurred := true;
    }
    var upTo := if levelUpOccurred then Some(newLevel) else None;
    var unlocked := UnlockCandidates(user, upTo, wasCritical, hour, actionCount);
    user.badges := Dedup(user.badges);
    r := Some(ActionResult(Awards(unlocked), upTo));
  }

  /** The five guarded `unlockBadge` calls of `handleUserAction`. */
  method UnlockCandidates(user: User, upTo: Option<int>, wasCritical: bool, hour: int, actionCount: int)
      returns (unlocked: seq<string>)
    modifies user
    ensures (user.badges, unlocked) == UnlockAll(old(user.badges), Candidates(upTo, wasCritical, hour, actionCount))
    ensures user.xp == old(user.xp) && user.level == old(user.level) && user.adoptedTrees == old(user.adoptedTrees)
  {
    unlocked := [];
    ghost var held := user.badges;
    ghost var tried: seq<string> := [];
    unlocked, tried := UnlockIf(user, upTo.Some? && upTo.value >= 5, GREEN_THUMB, unlocked, held, tried);
    unlocked, tried := UnlockIf(user, wasCritical, SAVER, unlocked, held, tried);
    unlocked, tried := UnlockIf(user, true, FIRST_DROP, unlocked, held, tried);
    unlocked, tried := UnlockIf(user, IsNight(hour), NIGHT_OWL, unlocked, held, tried);
    unlocked, tried := UnlockIf(user, actionCount >= 20, VETERAN, unlocked, held, tried);
    assert tried == Candidates(upTo, wasCritical, hour, actionCount);
  }

  /** A guarded call of `unlockBadge`; `tried` records, for the proof, the
      codes tried so far. */
  method UnlockIf(user: User, cond: bool, code: string, unlocked: seq<string>, ghost held: seq<string>, ghost tried: seq<string>)
      returns (unlocked': seq<string>, ghost tried': seq<string>)
    requires (user.badges, unlocked) == UnlockAll(held, tried)
    modifies user
    ensures tried' == tried + (if cond then [code] else [])
    ensures (user.badges, unlocked') == UnlockAll(held, tried')
    ensures user.xp == old(user.xp) && user.level == old(user.level) && user.adoptedTrees == old(user.adoptedTrees)
  {
    unlocked' := unlocked;
    tried' := tried;
    if cond {
      unlocked' := UnlockBadge(user, code, unlocked);
      UnlockAllSnoc(held, tried, code);
      tried' := tried + [code];
    }
  }

  /** The `unlockBadge` helper: pushes `code` unless it is already held. */
  method UnlockBadge(user: User, code: string, unlocked: seq<string>) returns (unlocked': seq<string>)
    modifies user
    ensures user.badges == if code in old(user.badges) then old(user.badges) else old(user.badges) + [code]
    ensures unlocked' == if code in old(user.badges) then unlocked else unlocked + [code]
    ensures user.xp == old(user.xp) && user.level == old(user.level) && user.adoptedTrees == old(user.adoptedTrees)
  {
    unlocked' := unlocked;
    if code !in user.badges {
      user.badges := user.badges + [code];
      unlocked' := unlocked + [code];
    }
  }
}
