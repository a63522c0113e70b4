/** Clearing the storage keys of one account. */
module AccountSession {
  import opened Common
  import opened Text
  import opened BrowserStorage
  import opened UriText

  const SEARCHES: string := "fbeds.agent.recent-searches."

  /** What stands behind the fixed start of a search key; an empty tenant id is no tenant. */
  function SearchSuffix(userId: string, tenantId: string): string {
    userId + if tenantId == "" then "" else ".tenant." + Encoded(tenantId)
  }

  function RecentSearchKey(userId: string, tenantId: string): string {
    SEARCHES + SearchSuffix(userId, tenantId)
  }

  const SESSION_MARK: string := "fbeds.agent.had-session"

  function NationalityKey(userId: string): string {
    "fbeds.agent.guest-nationality." + userId
  }

  const MARKUP_PREFIX: string := "fbeds:agent:client-markup:"

  function MarkupKey(userId: string, tenantId: string): string {
    MARKUP_PREFIX + tenantId + ":" + userId
  }

  predicate IsTenantSearch(key: string, userId: string) {
    StartsWith(key, RecentSearchKey(userId, "") + ".tenant.")
  }

  predicate IsMarkup(key: string, userId: string) {
    StartsWith(key, MARKUP_PREFIX) && EndsWith(key, ":" + userId)
  }

  /** The keys that clearing an account removes. */
  predicate Cleared(key: string, userId: string) {
    || key == SESSION_MARK
    || (userId != "" &&
        (|| key == RecentSearchKey(userId, "")
         || IsTenantSearch(key, userId)
         || key == NationalityKey(userId)
         || IsMarkup(key, userId)))
  }

  function Kept(keys: seq<string>, doomed: string -> bool): seq<string> {
    Filter((k: string) => !doomed(k), keys)
  }

  lemma KeptAfter(front: seq<string>, key: string, keys: seq<string>, doomed: string -> bool)
    ensures front + Kept([key] + keys, doomed) == if doomed(key) then front + Kept(keys, doomed) else front + [key] + Kept(keys, doomed)
  {
    FilterCons((k: string) => !doomed(k), key, keys);
  }

  /** `after` is `before` without the doomed keys. */
  ghost predicate Survive<V(!new)>(before: map<string, V>, after: map<string, V>, doomed: string -> bool) {
    && (forall k :: k in after <==> k in before && !doomed(k))
    && (forall k | k in after :: after[k] == before[k])
  }

  /** Part of the way: the doomed keys among `tail` are gone. */
  ghost predicate SurviveTail<V(!new)>(before: map<string, V>, now: map<string, V>, tail: seq<string>, doomed: string -> bool) {
    && (forall k :: k in now <==> k in before && (k in tail ==> !doomed(k)))
    && (forall k | k in now :: now[k] == before[k])
  }

  lemma TailGrows<V(!new)>(before: map<string, V>, now: map<string, V>, key: string, tail: seq<string>, doomed: string -> bool)
    requires SurviveTail(before, now, tail, doomed)
    ensures SurviveTail(before, if doomed(key) then now - {key} else now, [key] + tail, doomed)
  {
    assert forall k :: k in [key] + tail <==> k == key || k in tail;
  }

  /** One turn of the loop, on the keys: the one at the index is at its old place, and dropping it joins the rest. */
  lemma {:induction false} KeyTurn(was: seq<string>, tail: seq<string>, keys: seq<string>, index: nat, doomed: string -> bool)
    requires Distinct(keys) && index < |was| && was == was[..index + 1] + tail && keys == was[..index + 1] + Kept(tail, doomed)
    ensures index < |keys| && keys[index] == was[index]
    ensures was == was[..index] + ([was[index]] + tail)
    ensures (if doomed(was[index]) then Drop(keys, was[index]) else keys) == was[..index] + Kept([was[index]] + tail, doomed)
  {
    hide Kept, Drop, Distinct;
    assert was[..index + 1] == was[..index] + [was[index]];
    KeptAfter(was[..index], was[index], tail, doomed);
    DropAt(keys, index);
    assert keys[..index] == was[..index] && keys[index + 1..] == Kept(tail, doomed);
  }

  /** The downward loop: every doomed key goes, whatever moves as keys are removed; nothing else changes. */
  method RemoveMatching<V(!new)>(storage: SessionStorage<V>, doomed: string -> bool)
    requires storage.Valid()
    modifies storage
    ensures storage.Valid()
    ensures storage.keys == Kept(old(storage.keys), doomed)
    ensures Survive(old(storage.values), storage.values, doomed)
  {
    hide Kept, Drop, Distinct, SurviveTail;
    ghost var was, before := storage.keys, storage.values;
    ghost var tail: seq<string> := [];
    var index := |storage.keys| - 1;
    NothingYet(before, doomed);
    assert was[..index + 1] + [] == was;
    while index >= 0
      invariant storage.Valid()
      invariant -1 <= index < |was| && was == was[..index + 1] + tail
      invariant storage.keys == was[..index + 1] + Kept(tail, doomed)
      invariant SurviveTail(before, storage.values, tail, doomed)
    {
      KeyTurn(was, tail, storage.keys, index, doomed);
      TailGrows(before, storage.values, was[index], tail, doomed);
      var key := storage.Key(index);
      if key.Some? && doomed(key.value) {
        storage.RemoveItem(key.value);
      }
      tail := [was[index]] + tail;
      index := index - 1;
    }
    assert tail == was && was[..0] == [];
    AllDone(before, storage.values, tail, doomed);
  }

  lemma AllDone<V(!new)>(before: map<string, V>, now: map<string, V>, keys: seq<string>, doomed: string -> bool)
    requires SurviveTail(before, now, keys, doomed) && forall k :: k in keys <==> k in before
    ensures Survive(before, now, doomed)
  {
  }

  lemma NothingYet<V(!new)>(before: map<string, V>, doomed: string -> bool)
    ensures Kept([], doomed) == [] && SurviveTail(before, before, [], doomed)
  {
  }

  predicate ClearsSearch(key: string, userId: string, tenantId: string) {
    userId != "" && (key == RecentSearchKey(userId, tenantId) || (tenantId == "" && IsTenantSearch(key, userId)))
  }

  /** `clearRecentSearches`: one tenant's searches, or the plain ones and those of every tenant. */
  method ClearRecentSearches<V(!new)>(storage: SessionStorage<V>, userId: string, tenantId: string)
    requires storage.Valid()
    modifies storage
    ensures storage.Valid()
    ensures Survive(old(storage.values), storage.values, (k: string) => ClearsSearch(k, userId, tenantId))
  {
    hide IsTenantSearch, RecentSearchKey;
    if userId == "" {
      return;
    }
    storage.RemoveItem(RecentSearchKey(userId, tenantId));
    if tenantId != "" {
      return;
    }
    RemoveMatching(storage, (k: string) => IsTenantSearch(k, userId));
  }

  lemma SurviveThen<V(!new)>(before: map<string, V>, mid: map<string, V>, after: map<string, V>, first: string -> bool, second: string -> bool, both: string -> bool)
    requires Survive(before, mid, first) && Survive(mid, after, second)
    requires forall k :: both(k) <==> first(k) || second(k)
    ensures Survive(before, after, both)
  {
  }

  lemma SurviveRemoval<V(!new)>(before: map<string, V>, key: string)
    ensures Survive(before, before - {key}, (k: string) => k == key)
  {
  }

  /** `clearAccountSession`: removes exactly the keys of the account, and leaves every other key with its value. */
  method ClearAccountSession<V(!new)>(storage: SessionStorage<V>, userId: string)
    requires storage.Valid()
    modifies storage
    ensures storage.Valid()
    ensures Survive(old(storage.values), storage.values, (k: string) => Cleared(k, userId))
  {
    hide Survive, IsTenantSearch, IsMarkup, RecentSearchKey, NationalityKey;
    ghost var v0 := storage.values;
    var searches := (k: string) => ClearsSearch(k, userId, "");
    ClearRecentSearches(storage, userId, "");
    ghost var v1 := storage.values;
    storage.RemoveItem(SESSION_MARK);
    ghost var v2 := storage.values;
    SurviveRemoval(v1, SESSION_MARK);
    ghost var marked := (k: string) => searches(k) || k == SESSION_MARK;
    SurviveThen(v0, v1, v2, searches, (k: string) => k == SESSION_MARK, marked);
    ghost var all := (k: string) => Cleared(k, userId);
    if userId == "" {
      SurviveThen(v0, v2, v2, marked, (k: string) => false, all) by {
        SurviveNothing(v2);
      }
      return;
    }
    storage.RemoveItem(NationalityKey(userId));
    ghost var v3 := storage.values;
    SurviveRemoval(v2, NationalityKey(userId));
    ghost var noted := (k: string) => marked(k) || k == NationalityKey(userId);
    SurviveThen(v0, v2, v3, marked, (k: string) => k == NationalityKey(userId), noted);
    var markups := (k: string) => IsMarkup(k, userId);
    RemoveMatching(storage, markups);
    SurviveThen(v0, v3, storage.values, noted, markups, all);
  }

  lemma SurviveNothing<V(!new)>(before: map<string, V>)
    ensures Survive(before, before, (k: string) => false)
  {
  }

  // ----- whose keys those are

  /** Everything an account keeps is cleared with it, for every tenant. */
  lemma OwnKeysAreCleared(userId: string, tenantId: string)
    requires userId != ""
    ensures Cleared(RecentSearchKey(userId, tenantId), userId)
    ensures Cleared(NationalityKey(userId), userId)
    ensures Cleared(MarkupKey(userId, tenantId), userId)
    ensures Cleared(SESSION_MARK, userId)
  {
    var markup := MarkupKey(userId, tenantId);
    assert markup == MARKUP_PREFIX + (tenantId + (":" + userId));
    assert markup[|markup| - |":" + userId|..] == ":" + userId;
    if tenantId != "" {
      assert RecentSearchKey(userId, tenantId) == (RecentSearchKey(userId, "") + ".tenant.") + Encoded(tenantId);
    }
  }

  lemma KindsOfKeys(a: string, b: string, t: string)
    ensures RecentSearchKey(a, t) != NationalityKey(b) && RecentSearchKey(a, t) != SESSION_MARK && NationalityKey(a) != SESSION_MARK
    ensures !StartsWith(RecentSearchKey(a, t), MARKUP_PREFIX) && !StartsWith(NationalityKey(a), MARKUP_PREFIX)
    ensures !StartsWith(MarkupKey(a, t), "fbeds.") && StartsWith(RecentSearchKey(a, t), "fbeds.")
  {
    var s, n := RecentSearchKey(a, t), NationalityKey(b);
    assert s[12] == 'r' && n[12] == 'g' && SESSION_MARK[12] == 'h' && NationalityKey(a)[12] == 'g';
    assert s[5] == '.' && NationalityKey(a)[5] == '.' && MarkupKey(a, t)[5] == ':' && MARKUP_PREFIX[5] == ':';
  }

  /**
   * Clearing one account takes a search key of another, plain or of a tenant, exactly when that key reads as this account's
   * plain key or as one of its tenants.
   */
  lemma OtherSearches(userId: string, other: string, tenantId: string)
    requires userId != ""
    ensures Cleared(RecentSearchKey(other, tenantId), userId)
       <==> SearchSuffix(other, tenantId) == userId || StartsWith(SearchSuffix(other, tenantId), userId + ".tenant.")
  {
    hide Encoded, NationalityKey;
    var suffix := SearchSuffix(other, tenantId);
    KindsOfKeys(other, userId, tenantId);
    KeysWithTheirStart(suffix, userId);
    PrefixShift(SEARCHES, userId + ".tenant.", suffix);
  }

  lemma KeysWithTheirStart(suffix: string, userId: string)
    ensures SEARCHES + suffix == RecentSearchKey(userId, "") <==> suffix == userId
    ensures RecentSearchKey(userId, "") + ".tenant." == SEARCHES + (userId + ".tenant.")
  {
    assert RecentSearchKey(userId, "") == SEARCHES + userId;
    assert (SEARCHES + suffix)[|SEARCHES|..] == suffix && (SEARCHES + userId)[|SEARCHES|..] == userId;
  }

  lemma PrefixShift(head: string, a: string, b: string)
    ensures StartsWith(head + b, head + a) <==> StartsWith(b, a)
  {
    if StartsWith(head + b, head + a) {
      assert (head + b)[|head|..|head + a|] == (head + a)[|head|..];
      assert b[..|a|] == a;
    }
  }

  /** Clearing one account takes a markup key of another exactly when the key ends in a colon and this account's id. */
  lemma OtherMarkups(userId: string, other: string, tenantId: string)
    requires userId != ""
    ensures Cleared(MarkupKey(other, tenantId), userId) <==> EndsWith(MarkupKey(other, tenantId), ":" + userId)
  {
    var key := MarkupKey(other, tenantId);
    assert key[5] == ':' && (RecentSearchKey(userId, "") + ".tenant.")[5] == '.';
    assert RecentSearchKey(userId, "")[5] == NationalityKey(userId)[5] == SESSION_MARK[5] == '.';
    assert key == MARKUP_PREFIX + (tenantId + ":" + other);
  }

  lemma OtherNationalityIsKept(userId: string, other: string)
    requires userId != "" && other != userId
    ensures !Cleared(NationalityKey(other), userId)
  {
    var head := "fbeds.agent.guest-nationality.";
    KindsOfKeys(userId, other, "");
    KindsOfKeys(other, userId, "");
    assert NationalityKey(other)[|head|..] == other && NationalityKey(userId)[|head|..] == userId;
    assert NationalityKey(other)[12] == 'g' && (RecentSearchKey(userId, "") + ".tenant.")[12] == 'r';
  }

  // ----- between two accounts, for all tenants

  predicate Nested(a: string, b: string) {
    StartsWith(a, b) || StartsWith(b, a)
  }

  /** Two tenants of an account keep their searches under different keys. */
  lemma {:induction false} TenantKeysDiffer(userId: string, a: string, b: string)
    requires RecentSearchKey(userId, a) == RecentSearchKey(userId, b)
    ensures a == b
  {
    hide Encoded, Decoded;
    DecodedOfEncoded(a);
    DecodedOfEncoded(b);
    var x, y := SearchSuffix(userId, a), SearchSuffix(userId, b);
    assert x == RecentSearchKey(userId, a)[|SEARCHES|..] == RecentSearchKey(userId, b)[|SEARCHES|..] == y;
    assert a != "" ==> x == (userId + ".tenant.") + Encoded(a) && x[|userId| + 8..] == Encoded(a);
    assert b != "" ==> y == (userId + ".tenant.") + Encoded(b) && y[|userId| + 8..] == Encoded(b);
  }

  /** Some tenant of the other account, or none, has searches that are taken. */
  ghost predicate SomeSearchIsTaken(userId: string, other: string) {
    exists t :: Cleared(RecentSearchKey(other, t), userId)
  }

  /**
   * The other id followed by `.tenant.` begins with this id so followed, or the other way round, and then what this one has
   * more is a text that a tenant id can be written as.
   */
  predicate SearchesMeet(userId: string, other: string) {
    var a, b := userId + ".tenant.", other + ".tenant.";
    StartsWith(b, a) || (StartsWith(a, b) && IsEncoded(a[|b|..]))
  }

  lemma {:induction false} SearchesTakenIff(userId: string, other: string)
    requires userId != "" && other != userId
    ensures SomeSearchIsTaken(userId, other) <==> SearchesMeet(userId, other)
  {
    hide Cleared, RecentSearchKey, IsEncoded;
    if SearchesMeet(userId, other) {
      var t := TakenTenant(userId, other);
      assert Cleared(RecentSearchKey(other, t), userId);
    }
    if t :| Cleared(RecentSearchKey(other, t), userId) {
      OtherSearches(userId, other, t);
      TakenMeets(userId, other, t);
    }
  }

  lemma {:induction false} TakenTenant(userId: string, other: string) returns (t: string)
    requires userId != "" && other != userId && SearchesMeet(userId, other)
    ensures Cleared(RecentSearchKey(other, t), userId)
  {
    hide Cleared, RecentSearchKey, Encoded, Decoded;
    var a, b := userId + ".tenant.", other + ".tenant.";
    if StartsWith(b, a) {
      t := "x";
      UnescapedIsEncoded(t);
      assert SearchSuffix(other, t) == b + "x";
      assert StartsWith(SearchSuffix(other, t), a);
    } else {
      var more := a[|b|..];
      assert a == b + more && (more == "" ==> a == b);
      if a == b {
        FollowedInjective(userId, other);
      }
      t := Decoded(more);
      assert Encoded(t) == more;
      WrittenIsNotEmpty(t);
      assert SearchSuffix(other, t) == b + more;
    }
    OtherSearches(userId, other, t);
  }

  lemma WrittenIsNotEmpty(t: string)
    ensures t == "" ==> Encoded(t) == ""
  {
  }

  lemma FollowedInjective(a: string, b: string)
    requires a + ".tenant." == b + ".tenant."
    ensures a == b
  {
    assert |a| == |b|;
    assert a == (a + ".tenant.")[..|a|];
    assert b == (b + ".tenant.")[..|b|];
  }

  lemma {:induction false} TakenMeets(userId: string, other: string, t: string)
    requires userId != other
    requires SearchSuffix(other, t) == userId || StartsWith(SearchSuffix(other, t), userId + ".tenant.")
    ensures SearchesMeet(userId, other)
  {
    hide IsEncoded, Encoded;
    var a, b, suffix := userId + ".tenant.", other + ".tenant.", SearchSuffix(other, t);
    if t == "" {
      assert b[..|a|] == suffix[..|a|] == a;
    } else if suffix == userId {
      var more := Encoded(t) + ".tenant.";
      assert a == b + more && a[|b|..] == more;
      UnescapedIsEncoded(".tenant.");
      EncodedAppend(t, ".tenant.");
      EncodedIsEncoded(t + ".tenant.");
    } else {
      assert suffix == b + Encoded(t);
      LongerMeets(userId, other, t);
    }
  }

  lemma {:induction false} LongerMeets(userId: string, other: string, t: string)
    requires userId != other && StartsWith((other + ".tenant.") + Encoded(t), userId + ".tenant.")
    ensures SearchesMeet(userId, other)
  {
    hide IsEncoded, Encoded;
    var a, b := userId + ".tenant.", other + ".tenant.";
    var suffix := b + Encoded(t);
    if |a| <= |b| {
      assert b[..|a|] == suffix[..|a|] == a;
    } else {
      var more := a[|b|..];
      assert a[..|b|] == suffix[..|a|][..|b|] == b;
      assert more == suffix[..|a|][|b|..] == Encoded(t)[..|more|];
      assert more[|more| - 1] == a[|a| - 1] == '.';
      var k := CutAfterDot(t, more);
      EncodedIsEncoded(t[..k]);
    }
  }

  /** For ids in which nothing is escaped it comes to this: neither id followed by `.tenant.` begins the other so followed. */
  lemma {:induction false} UnescapedIdsMeetIff(userId: string, other: string)
    requires forall i | 0 <= i < |userId| :: IsUnescaped(userId[i])
    ensures SearchesMeet(userId, other) <==> Nested(userId + ".tenant.", other + ".tenant.")
  {
    var a, b := userId + ".tenant.", other + ".tenant.";
    assert forall i | 0 <= i < |a| :: IsUnescaped(a[i]);
    if StartsWith(a, b) {
      var more := a[|b|..];
      assert forall i | 0 <= i < |more| :: more[i] == a[i + |b|];
      hide Decoded;
      UnescapedIsEncoded(more);
      EncodedIsEncoded(more);
    }
  }

  ghost predicate SomeMarkupIsTaken(userId: string, other: string) {
    exists t :: Cleared(MarkupKey(other, t), userId)
  }

  predicate NestedAtTheEnd(a: string, b: string) {
    EndsWith(a, b) || EndsWith(b, a)
  }

  lemma EndsWithFront(front: string, a: string, b: string)
    requires EndsWith(a, b)
    ensures EndsWith(front + a, b)
  {
    assert (front + a)[|front + a| - |b|..] == a[|a| - |b|..];
  }

  lemma EndsOf(whole: string, a: string, b: string)
    requires EndsWith(whole, a) && EndsWith(whole, b)
    ensures NestedAtTheEnd(a, b)
  {
    if |a| <= |b| {
      assert b[|b| - |a|..] == whole[|whole| - |b|..][|b| - |a|..] == whole[|whole| - |a|..];
    } else {
      assert a[|a| - |b|..] == whole[|whole| - |a|..][|a| - |b|..] == whole[|whole| - |b|..];
    }
  }

  lemma MarkupKeyParts(other: string, t: string)
    ensures MarkupKey(other, t) == MARKUP_PREFIX + (t + (":" + other)) && MarkupKey(other, t) == (MARKUP_PREFIX + t) + (":" + other)
  {
  }

  lemma {:induction false} LongerMarkupIsTaken(userId: string, other: string)
    requires userId != "" && EndsWith(":" + other, ":" + userId)
    ensures Cleared(MarkupKey(other, "x"), userId)
  {
    hide Cleared, EndsWith, MarkupKey;
    OtherMarkups(userId, other, "x");
    EndsWithFront(MARKUP_PREFIX + "x", ":" + other, ":" + userId);
    MarkupKeyParts(other, "x");
  }

  lemma {:induction false} ShorterMarkupIsTaken(userId: string, other: string) returns (t: string)
    requires userId != "" && EndsWith(":" + userId, ":" + other)
    ensures Cleared(MarkupKey(other, t), userId)
  {
    var a, b := ":" + userId, ":" + other;
    t := a[..|a| - |b|];
    assert a == t + b;
    EndsWithItself(a);
    hide Cleared, EndsWith, MarkupKey;
    OtherMarkups(userId, other, t);
    MarkupKeyParts(other, t);
    EndsWithFront(MARKUP_PREFIX, a, a);
  }

  lemma EndsWithItself(a: string)
    ensures EndsWith(a, a)
  {
  }

  lemma {:induction false} TakenMarkupIsNested(userId: string, other: string, t: string)
    requires userId != "" && Cleared(MarkupKey(other, t), userId)
    ensures NestedAtTheEnd(":" + userId, ":" + other)
  {
    hide Cleared, EndsWith, NestedAtTheEnd, MarkupKey;
    var a, b := ":" + userId, ":" + other;
    OtherMarkups(userId, other, t);
    MarkupKeyParts(other, t);
    EndsWithItself(b);
    EndsWithFront(MARKUP_PREFIX + t, b, b);
    EndsOf(MarkupKey(other, t), a, b);
  }

  lemma {:induction false} MarkupsTakenIff(userId: string, other: string)
    requires userId != "" && other != userId
    ensures SomeMarkupIsTaken(userId, other) <==> NestedAtTheEnd(":" + userId, ":" + other)
  {
    hide Cleared, EndsWith, MarkupKey;
    if EndsWith(":" + other, ":" + userId) {
      LongerMarkupIsTaken(userId, other);
    } else if EndsWith(":" + userId, ":" + other) {
      var t := ShorterMarkupIsTaken(userId, other);
    }
    if t :| Cleared(MarkupKey(other, t), userId) {
      TakenMarkupIsNested(userId, other, t);
    }
  }

  /** Clearing the account leaves every key of the other account alone, whatever its tenants. */
  ghost predicate LeavesAlone(userId: string, other: string) {
    && (forall t :: !Cleared(RecentSearchKey(other, t), userId))
    && (forall t :: !Cleared(MarkupKey(other, t), userId))
    && !Cleared(NationalityKey(other), userId)
  }

  /**
   * Between two accounts, over all tenant ids: clearing the one leaves all keys of the other alone exactly when their searches
   * do not meet, and neither id after a colon ends the other so.
   */
  lemma {:induction false} LeavesAloneIff(userId: string, other: string)
    requires userId != "" && other != userId
    ensures LeavesAlone(userId, other) <==> !SearchesMeet(userId, other) && !NestedAtTheEnd(":" + userId, ":" + other)
  {
    hide Cleared, RecentSearchKey, MarkupKey, NationalityKey, SearchesMeet, NestedAtTheEnd;
    SearchesTakenIff(userId, other);
    MarkupsTakenIff(userId, other);
    OtherNationalityIsKept(userId, other);
  }

  /** The ids the portal is given: no dots and no colons. */
  predicate PlainId(id: string) {
    id != "" && '.' !in id && ':' !in id
  }

  lemma DottedPrefix(a: string, b: string, rest: string)
    requires '.' !in a && '.' !in b && (rest == "" || rest[0] == '.')
    requires StartsWith(b + rest, a + ".tenant.")
    ensures a == b
  {
    var tail := (b + rest)[|a|..];
    assert b + rest == a + tail && tail[0] == '.' by {
      assert (b + rest)[..|a| + 8] == a + ".tenant.";
      assert (b + rest)[|a|] == (a + ".tenant.")[|a|];
    }
    TextBeforeOf(a, tail, '.');
    TextBeforeOf(b, rest, '.');
  }

  lemma ColonSuffix(a: string, b: string, front: string)
    requires ':' !in a && ':' !in b
    requires EndsWith(front + ":" + b, ":" + a)
    ensures a == b
  {
    var whole := front + ":" + b;
    var head := whole[..|whole| - |a|];
    assert whole[|whole| - |a| - 1..] == ":" + a;
    assert whole[|whole| - |a|..] == (":" + a)[1..] == a;
    assert whole == head + a && head[|head| - 1] == ':';
    TextAfterLastOf(head, a, ':');
    TextAfterLastOf(front + ":", b, ':');
  }

  /** In particular between plain ids. */
  lemma {:induction false} PlainIdsAreLeftAlone(userId: string, other: string)
    requires PlainId(userId) && PlainId(other) && other != userId
    ensures LeavesAlone(userId, other)
  {
    LeavesAloneIff(userId, other);
    hide LeavesAlone, IsEncoded;
    var a, b := userId + ".tenant.", other + ".tenant.";
    if StartsWith(a, b) {
      DottedPrefix(other, userId, ".tenant.");
    }
    if StartsWith(b, a) {
      DottedPrefix(userId, other, ".tenant.");
    }
    assert "" + ":" + other == ":" + other && "" + ":" + userId == ":" + userId;
    if EndsWith(":" + userId, ":" + other) {
      ColonSuffix(other, userId, "");
    }
    if EndsWith(":" + other, ":" + userId) {
      ColonSuffix(userId, other, "");
    }
  }

  /** Clearing one account takes the plain searches of an account with a longer id. */
  lemma {:induction false} LongerIdsCollide()
    ensures Cleared(RecentSearchKey("a.tenant.b", ""), "a")
  {
    hide Cleared, RecentSearchKey, Encoded;
    OtherSearches("a", "a.tenant.b", "");
    assert SearchSuffix("a.tenant.b", "") == "a" + ".tenant." + "b";
  }

  /** And the tenant searches of an account with a shorter one. */
  lemma {:induction false} ShorterIdsCollide()
    ensures Cleared(RecentSearchKey("x", "y.tenant.z"), "x.tenant.y")
  {
    hide Cleared, RecentSearchKey, Encoded;
    OtherSearches("x.tenant.y", "x", "y.tenant.z");
    UnescapedIsEncoded("y.tenant.z");
    assert SearchSuffix("x", "y.tenant.z") == "x.tenant.y" + ".tenant." + "z";
  }

  /** But not where what that id has more is never written: a space is. */
  lemma {:induction false} SpacedIdsDoNotMeet()
    ensures !SearchesMeet("x.tenant.a b", "x") && Nested("x.tenant.a b" + ".tenant.", "x" + ".tenant.")
  {
    var a, b := "x.tenant.a b" + ".tenant.", "x" + ".tenant.";
    var more := "a b.tenant.";
    hide Encoded, Decoded;
    assert a == b + more && a[|b|..] == more && more[1] == ' ';
    NoSpaces(Decoded(more));
  }

  /** And the markup of an account whose id ends in a colon and this one. */
  lemma {:induction false} ColonIdsCollide()
    ensures Cleared(MarkupKey("a:b", "t"), "b")
  {
    hide Cleared;
    OtherMarkups("b", "a:b", "t");
    EndsWithFront(MARKUP_PREFIX + "t:a", ":b", ":" + "b");
    assert MarkupKey("a:b", "t") == (MARKUP_PREFIX + "t:a") + ":b";
  }
}
