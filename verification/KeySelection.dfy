/** Three notions of an available key (battle-net.service.ts, getKeyCooldownMs, getAvailableKey, getAllKeys). */
module KeySelection {
  import opened Wrappers
  import opened Sequences
  import opened KeyHealth

  /** new Date(lastFailureAt + cooldown * 1000); a Date holds whole milliseconds. */
  function CooldownEnd(last: int, cooldown: real): int {
    (last as real + cooldown * 1000.0).Floor
  }

  function KeyMs(k: Key, now: int): (ms: nat) {
    if k.cooldown == 0.0 || k.lastFailureAt == None then 0
    else
      var end := CooldownEnd(k.lastFailureAt.value, k.cooldown);
      if end > now then end - now else 0
  }

  ghost predicate UniqueIds(keys: seq<Key>) {
    forall i, j :: 0 <= i < j < |keys| ==> keys[i].uuid != keys[j].uuid
  }

  predicate Has(keys: seq<Key>, uuid: string) {
    exists i :: 0 <= i < |keys| && keys[i].uuid == uuid
  }

  /** findOne({ where: { uuid } }) */
  function Find(keys: seq<Key>, uuid: string): (k: Option<Key>)
    ensures k.Some? <==> Has(keys, uuid)
    ensures k.Some? ==> k.value in keys && k.value.uuid == uuid
  {
    if keys == [] then None
    else if keys[0].uuid == uuid then Some(keys[0])
    else Find(keys[1..], uuid)
  }

  /** getKeyCooldownMs: an unknown key has nothing to wait for. */
  function GetKeyCooldownMs(keys: seq<Key>, uuid: string, now: int): nat {
    var k := Find(keys, uuid);
    if k == None then 0 else KeyMs(k.value, now)
  }

  /**
   * A key may be used when it has no cooldown, never failed, or its cooldown is over; what is left of it is counted
   * in whole milliseconds, a started one not.
   */
  lemma KeyMsExactly(k: Key, now: int)
    ensures k.cooldown == 0.0 || k.lastFailureAt == None ==> KeyMs(k, now) == 0
    ensures k.cooldown != 0.0 && k.lastFailureAt.Some? ==>
              var left := k.lastFailureAt.value as real + k.cooldown * 1000.0 - now as real;
              && (left < 1.0 ==> KeyMs(k, now) == 0)
              && (left >= 1.0 ==> KeyMs(k, now) as real <= left < KeyMs(k, now) as real + 1.0)
  {
  }

  /** The filter in getAvailableKey. */
  function IsAvailable(now: int): Key -> bool {
    (k: Key) =>
      k.cooldown == 0.0 || k.lastFailureAt == None || CooldownEnd(k.lastFailureAt.value, k.cooldown) <= now
  }

  function HasTag(tag: string): Key -> bool {
    (k: Key) => k.tags.Some? && tag in k.tags.value
  }

  function Cooldown(): Key -> real {
    (k: Key) => k.cooldown
  }

  function GetAvailableKey(keys: seq<Key>, tag: Option<string>, now: int): Option<Key> {
    var available := Filter(keys, IsAvailable(now));
    var tagged := if tag.Some? && tag.value != "" then Filter(available, HasTag(tag.value)) else available;
    if tagged == [] then None else Some(SortBy(tagged, Cooldown())[0])
  }

  function HasAnyTag(tags: seq<string>): Key -> bool {
    (k: Key) => k.tags.Some? && exists t :: t in tags && t in k.tags.value
  }

  /** The comparator of getAllKeys. */
  function EffectiveCooldown(now: int): Key -> real {
    (k: Key) =>
      if k.cooldown == 0.0 || k.lastFailureAt == None then 0.0
      else if CooldownEnd(k.lastFailureAt.value, k.cooldown) > now then k.cooldown
      else 0.0
  }

  function GetAllKeys(keys: seq<Key>, tags: seq<string>, now: int): seq<Key> {
    SortBy(if |tags| > 0 then Filter(keys, HasAnyTag(tags)) else keys, EffectiveCooldown(now))
  }

  // ----- agreement

  /** The keys a caller asks for: all of them, or those with the tag. */
  function Asked(tag: Option<string>): Key -> bool {
    (k: Key) => tag.Some? && tag.value != "" ==> k.tags.Some? && tag.value in k.tags.value
  }

  function Eligible(tag: Option<string>, now: int): Key -> bool {
    (k: Key) => Asked(tag)(k) && KeyMs(k, now) == 0
  }

  /** i is the first position of a least key among those satisfying p. */
  ghost predicate IsFirstLeast<T>(xs: seq<T>, p: T -> bool, key: T -> real, i: nat) {
    && i < |xs| && p(xs[i])
    && forall j :: 0 <= j < |xs| && p(xs[j]) ==>
         key(xs[i]) <= key(xs[j]) && (j < i ==> key(xs[i]) < key(xs[j]))
  }

  lemma FirstLeastUnique<T>(xs: seq<T>, p: T -> bool, key: T -> real, i: nat, j: nat)
    requires IsFirstLeast(xs, p, key, i) && IsFirstLeast(xs, p, key, j)
    ensures i == j
  {
  }

  /** Looking at one more element in front. */
  lemma FirstLeastSkip<T>(xs: seq<T>, p: T -> bool, key: T -> real, r: nat)
    requires xs != [] && IsFirstLeast(xs[1..], p, key, r)
    requires p(xs[0]) ==> key(xs[r + 1]) < key(xs[0])
    ensures IsFirstLeast(xs, p, key, r + 1)
  {
    forall j | 0 <= j < |xs| && p(xs[j])
      ensures key(xs[r + 1]) <= key(xs[j]) && (j < r + 1 ==> key(xs[r + 1]) < key(xs[j]))
    {
      if j > 0 { assert xs[j] == xs[1..][j - 1]; }
    }
  }

  lemma FirstLeastHead<T>(xs: seq<T>, p: T -> bool, key: T -> real, r: nat)
    requires xs != [] && p(xs[0]) && IsFirstLeast(xs[1..], p, key, r) && key(xs[0]) <= key(xs[r + 1])
    ensures IsFirstLeast(xs, p, key, 0)
  {
    forall j | 0 < j < |xs| && p(xs[j]) ensures key(xs[0]) <= key(xs[j]) {
      assert xs[j] == xs[1..][j - 1];
    }
  }

  lemma OnlyHead<T>(xs: seq<T>, p: T -> bool, key: T -> real)
    requires xs != [] && p(xs[0]) && Filter(xs[1..], p) == []
    ensures IsFirstLeast(xs, p, key, 0)
  {
    forall j | 0 < j < |xs| ensures !p(xs[j]) {
      assert xs[j] in xs[1..];
    }
  }

  /** The head of the stable sort is the first least element of the original list. */
  lemma {:induction false} SortedHead<T>(xs: seq<T>, p: T -> bool, key: T -> real) returns (i: nat)
    requires Filter(xs, p) != []
    ensures IsFirstLeast(xs, p, key, i)
    ensures SortBy(Filter(xs, p), key)[0] == xs[i]
  {
    hide IsFirstLeast;
    var rest := xs[1..];
    if p(xs[0]) {
      assert Filter(xs, p)[1..] == Filter(rest, p);
      if Filter(rest, p) == [] {
        OnlyHead(xs, p, key);
        return 0;
      }
    }
    var r := SortedHead(rest, p, key);
    InList(rest, p, key, r);
    if p(xs[0]) && key(xs[0]) <= key(rest[r]) {
      FirstLeastHead(xs, p, key, r);
      return 0;
    }
    FirstLeastSkip(xs, p, key, r);
    return r + 1;
  }

  lemma InList<T>(xs: seq<T>, p: T -> bool, key: T -> real, i: nat)
    requires IsFirstLeast(xs, p, key, i)
    ensures i < |xs|
  {
  }

  lemma EligibleParts(k: Key, tag: Option<string>, now: int)
    ensures IsAvailable(now)(k) <==> KeyMs(k, now) == 0
    ensures Eligible(tag, now)(k) <==> IsAvailable(now)(k) && Asked(tag)(k)
    ensures tag.Some? && tag.value != "" ==> Asked(tag)(k) == HasTag(tag.value)(k)
    ensures !(tag.Some? && tag.value != "") ==> Asked(tag)(k)
  {
  }

  /** Both filters together keep the eligible keys, in repository order. */
  lemma TaggedAvailable(keys: seq<Key>, tag: Option<string>, now: int)
    ensures var available := Filter(keys, IsAvailable(now));
            (if tag.Some? && tag.value != "" then Filter(available, HasTag(tag.value)) else available)
              == Filter(keys, Eligible(tag, now))
  {
    if tag.Some? && tag.value != "" {
      forall k | k in keys ensures Eligible(tag, now)(k) <==> IsAvailable(now)(k) && HasTag(tag.value)(k) {
        EligibleParts(k, tag, now);
      }
      FilterTwice(keys, IsAvailable(now), HasTag(tag.value), Eligible(tag, now));
    } else {
      forall k | k in keys ensures IsAvailable(now)(k) == Eligible(tag, now)(k) {
        EligibleParts(k, tag, now);
      }
      FilterAgree(keys, IsAvailable(now), Eligible(tag, now));
    }
  }

  /** The chosen key is asked for, needs no wait, and is the first with the least cooldown. */
  lemma AvailableKeyIsFirstLeast(keys: seq<Key>, tag: Option<string>, now: int) returns (i: nat)
    requires GetAvailableKey(keys, tag, now).Some?
    ensures IsFirstLeast(keys, Eligible(tag, now), Cooldown(), i)
    ensures GetAvailableKey(keys, tag, now) == Some(keys[i])
  {
    TaggedAvailable(keys, tag, now);
    i := SortedHead(keys, Eligible(tag, now), Cooldown());
  }

  /** No key is chosen exactly when every key asked for must wait. */
  lemma NoneAvailableIffAllWait(keys: seq<Key>, tag: Option<string>, now: int)
    ensures GetAvailableKey(keys, tag, now) == None
       <==> forall k :: k in keys && Asked(tag)(k) ==> KeyMs(k, now) > 0
  {
    TaggedAvailable(keys, tag, now);
    var eligible := Filter(keys, Eligible(tag, now));
    if eligible != [] {
      assert eligible[0] in eligible;
    }
    forall k | k in keys && Asked(tag)(k) && KeyMs(k, now) == 0 ensures eligible != [] {
      assert Eligible(tag, now)(k);
    }
  }

  /** The tag argument as getAllKeys takes it. */
  function TagList(tag: Option<string>): seq<string> {
    if tag.Some? then [tag.value] else []
  }

  lemma EffectiveIsWait(k: Key, now: int)
    requires k.cooldown >= 0.0
    ensures EffectiveCooldown(now)(k) > 0.0 <==> KeyMs(k, now) > 0
    ensures EffectiveCooldown(now)(k) >= 0.0
  {
  }

  /** The keys getAllKeys is asked for: those with one of the tags, or all when there are none. */
  function AskedAny(tags: seq<string>): Key -> bool {
    (k: Key) => tags == [] || (k.tags.Some? && exists t :: t in tags && t in k.tags.value)
  }

  /** getAllKeys returns exactly the keys asked for, each once, least effective cooldown first. */
  lemma AllKeysOrdered(keys: seq<Key>, tags: seq<string>, now: int)
    ensures var all := GetAllKeys(keys, tags, now);
            && multiset(all) == multiset(Filter(keys, AskedAny(tags)))
            && SortedBy(all, EffectiveCooldown(now))
            && forall k :: k in all <==> k in keys && AskedAny(tags)(k)
  {
    hide SortBy, SortedBy, EffectiveCooldown;
    AskedKeys(keys, tags);
    var asked := Filter(keys, AskedAny(tags));
    SortBySorted(asked, EffectiveCooldown(now));
    SortByMultiset(asked, EffectiveCooldown(now));
    SortByMembers(asked, EffectiveCooldown(now));
  }

  /** The selection getAllKeys sorts. */
  lemma AskedKeys(keys: seq<Key>, tags: seq<string>)
    ensures (if |tags| > 0 then Filter(keys, HasAnyTag(tags)) else keys) == Filter(keys, AskedAny(tags))
  {
    if |tags| > 0 {
      FilterAgree(keys, HasAnyTag(tags), AskedAny(tags));
    } else {
      FilterAll(keys, AskedAny(tags));
    }
  }

  function Ready(now: int): Key -> bool {
    (k: Key) => KeyMs(k, now) == 0
  }

  /** getAllKeys lists the keys that are ready first, in repository order, then the others by their cooldown. */
  lemma AllKeysGroups(keys: seq<Key>, tags: seq<string>, now: int)
    requires forall k :: k in keys ==> k.cooldown >= 0.0
    ensures var all := GetAllKeys(keys, tags, now);
            && (forall i, j :: 0 <= i < j < |all| && KeyMs(all[j], now) == 0 ==> KeyMs(all[i], now) == 0)
            && (forall i, j :: 0 <= i < j < |all| && KeyMs(all[i], now) > 0 ==> all[i].cooldown <= all[j].cooldown)
            && Filter(all, Ready(now)) == Filter(Filter(keys, AskedAny(tags)), Ready(now))
  {
    hide SortBy, AskedAny, KeyMs, EffectiveCooldown;
    var all, asked, key := GetAllKeys(keys, tags, now), Filter(keys, AskedAny(tags)), EffectiveCooldown(now);
    AskedKeys(keys, tags);
    AllKeysOrdered(keys, tags, now);
    forall k | k in keys ensures EffectiveParts(k, now) {
      EffectiveSplit(k, now);
    }
    forall i, j | 0 <= i < j < |all|
      ensures KeyMs(all[j], now) == 0 ==> KeyMs(all[i], now) == 0
      ensures KeyMs(all[i], now) > 0 ==> all[i].cooldown <= all[j].cooldown
    {
      assert all[i] in all && all[j] in all;
      assert EffectiveParts(all[i], now) && EffectiveParts(all[j], now);
      assert key(all[i]) <= key(all[j]);
    }
    FilterSort(asked, key, Ready(now));
    ReadyStay(Filter(asked, Ready(now)), now);
  }

  /** The effective cooldown is the stored one of a key that must wait, and 0 of any other. */
  ghost predicate EffectiveParts(k: Key, now: int) {
    && (KeyMs(k, now) > 0 ==> EffectiveCooldown(now)(k) == k.cooldown > 0.0)
    && (KeyMs(k, now) == 0 ==> EffectiveCooldown(now)(k) == 0.0)
  }

  lemma EffectiveSplit(k: Key, now: int)
    requires k.cooldown >= 0.0
    ensures EffectiveParts(k, now)
  {
    EffectiveIsWait(k, now);
  }

  /** Sorting ready keys leaves them in their order. */
  lemma ReadyStay(ready: seq<Key>, now: int)
    requires forall k :: k in ready ==> KeyMs(k, now) == 0 && k.cooldown >= 0.0
    ensures SortBy(ready, EffectiveCooldown(now)) == ready
  {
    hide KeyMs, EffectiveCooldown;
    forall i, j | 0 <= i <= j < |ready| ensures EffectiveCooldown(now)(ready[i]) <= EffectiveCooldown(now)(ready[j]) {
      EffectiveSplit(ready[i], now);
      EffectiveSplit(ready[j], now);
    }
    SortSorted(ready, EffectiveCooldown(now));
  }

  lemma SameQuestion(k: Key, tag: Option<string>)
    ensures AskedAny(TagList(tag))(k) <==> tag == None || HasTag(tag.value)(k)
    ensures tag != Some("") ==> AskedAny(TagList(tag))(k) == Asked(tag)(k)
    ensures tag == Some("") ==> Asked(tag)(k)
  {
    if tag.Some? {
      assert tag.value in [tag.value];
    }
  }

  /** The head of getAllKeys must wait, or there is none, exactly when every key asked for must wait. */
  lemma HeadWaitsIffAllWait(keys: seq<Key>, tags: seq<string>, now: int)
    requires forall k :: k in keys ==> k.cooldown >= 0.0
    ensures var all := GetAllKeys(keys, tags, now);
            (all == [] || EffectiveCooldown(now)(all[0]) > 0.0)
            <==> forall k :: k in keys && AskedAny(tags)(k) ==> KeyMs(k, now) > 0
  {
    hide EffectiveCooldown, KeyMs, GetAllKeys, AskedAny;
    var all := GetAllKeys(keys, tags, now);
    AllKeysOrdered(keys, tags, now);
    if all != [] {
      assert all[0] in all;
      EffectiveIsWait(all[0], now);
      forall k | k in keys && AskedAny(tags)(k)
        ensures EffectiveCooldown(now)(all[0]) > 0.0 ==> KeyMs(k, now) > 0
      {
        assert k in all;
        var i :| 0 <= i < |all| && all[i] == k;
        EffectiveIsWait(k, now);
      }
    }
  }

  /** The three notions agree: nothing to choose, nothing without a wait, nothing ready at the head. */
  lemma AvailabilityAgrees(keys: seq<Key>, tag: Option<string>, now: int)
    requires tag != Some("") && forall k :: k in keys ==> k.cooldown >= 0.0
    ensures var all := GetAllKeys(keys, TagList(tag), now);
            GetAvailableKey(keys, tag, now) == None <==> all == [] || EffectiveCooldown(now)(all[0]) > 0.0
  {
    hide GetAvailableKey, GetAllKeys, EffectiveCooldown, KeyMs, Asked, AskedAny;
    NoneAvailableIffAllWait(keys, tag, now);
    HeadWaitsIffAllWait(keys, TagList(tag), now);
    forall k | k in keys ensures AskedAny(TagList(tag))(k) == Asked(tag)(k) {
      SameQuestion(k, tag);
    }
  }

  /**
   * The empty string as tag: getAvailableKey ignores it, getAllKeys looks for it. They agree on whether a key is
   * ready exactly when a ready key anywhere means a ready key with the empty tag.
   */
  lemma EmptyTagAgreement(keys: seq<Key>, now: int)
    requires forall k :: k in keys ==> k.cooldown >= 0.0
    ensures var all := GetAllKeys(keys, TagList(Some("")), now);
            (GetAvailableKey(keys, Some(""), now) == None <==> all == [] || EffectiveCooldown(now)(all[0]) > 0.0)
            <==> ((exists k :: k in keys && KeyMs(k, now) == 0)
                  ==> exists k :: k in keys && HasTag("")(k) && KeyMs(k, now) == 0)
  {
    hide GetAvailableKey, GetAllKeys, EffectiveCooldown, KeyMs, Asked, AskedAny, HasTag;
    NoneAvailableIffAllWait(keys, Some(""), now);
    HeadWaitsIffAllWait(keys, TagList(Some("")), now);
    forall k | k in keys ensures AskedAny(TagList(Some("")))(k) == HasTag("")(k) && Asked(Some(""))(k) {
      SameQuestion(k, Some(""));
    }
  }

  /** A table where they do not. */
  lemma EmptyTagDisagrees()
    ensures var keys := [Key("a", 0.0, None, Some(["dma"]))];
            GetAvailableKey(keys, Some(""), 0) == Some(keys[0]) && GetAllKeys(keys, TagList(Some("")), 0) == []
  {
  }

  /** f is the first key, in repository order, that a caller may use. */
  ghost predicate IsFirstEligible(keys: seq<Key>, tag: Option<string>, now: int, f: nat) {
    && f < |keys| && Eligible(tag, now)(keys[f])
    && forall j :: 0 <= j < f ==> !Eligible(tag, now)(keys[j])
  }

  lemma EligibleIsFree(k: Key, tag: Option<string>, now: int)
    requires tag != Some("") && k.cooldown >= 0.0
    ensures Eligible(tag, now)(k) <==> AskedAny(TagList(tag))(k) && EffectiveCooldown(now)(k) == 0.0
    ensures EffectiveCooldown(now)(k) >= 0.0
  {
    EffectiveIsWait(k, now);
    SameQuestion(k, tag);
  }

  /** getAllKeys puts the first eligible key at its head. */
  lemma HeadIsFirstEligible(keys: seq<Key>, tag: Option<string>, now: int, f: nat)
    requires tag != Some("") && forall k :: k in keys ==> k.cooldown >= 0.0
    requires IsFirstEligible(keys, tag, now, f)
    ensures var all := GetAllKeys(keys, TagList(tag), now);
            all != [] && all[0] == keys[f]
  {
    hide Eligible, EffectiveCooldown, AskedAny, SortBy;
    var p, key := AskedAny(TagList(tag)), EffectiveCooldown(now);
    AskedKeys(keys, TagList(tag));
    forall k | k in keys
      ensures key(k) >= 0.0 && (Eligible(tag, now)(k) <==> p(k) && key(k) == 0.0)
    {
      EligibleIsFree(k, tag, now);
    }
    assert keys[f] in keys && keys[f] in Filter(keys, p);
    var i := SortedHead(keys, p, key);
    forall j | 0 <= j < |keys| && p(keys[j])
      ensures key(keys[f]) <= key(keys[j]) && (j < f ==> key(keys[f]) < key(keys[j]))
    {
      assert keys[j] in keys;
    }
    FirstLeastUnique(keys, p, key, i, f);
  }

  /**
   * Both functions offer the same key exactly when no eligible key has a lower cooldown than the first eligible
   * one: getAllKeys forgets the length of an expired cooldown, getAvailableKey does not.
   */
  lemma HeadsAgree(keys: seq<Key>, tag: Option<string>, now: int, f: nat)
    requires tag != Some("") && forall k :: k in keys ==> k.cooldown >= 0.0
    requires IsFirstEligible(keys, tag, now, f)
    ensures var all := GetAllKeys(keys, TagList(tag), now);
            all != [] && all[0] == keys[f]
    ensures GetAvailableKey(keys, tag, now) == Some(GetAllKeys(keys, TagList(tag), now)[0])
       <==> forall k :: k in keys && Eligible(tag, now)(k) ==> keys[f].cooldown <= k.cooldown
  {
    hide Eligible, GetAvailableKey, GetAllKeys, KeyMs, Asked;
    HeadIsFirstEligible(keys, tag, now, f);
    SomeAvailable(keys, tag, now, f);
    var i := AvailableKeyIsFirstLeast(keys, tag, now);
    forall k | k in keys && Eligible(tag, now)(k) ensures keys[i].cooldown <= k.cooldown {
      var j :| 0 <= j < |keys| && keys[j] == k;
      assert Cooldown()(keys[i]) <= Cooldown()(keys[j]);
    }
    if forall k :: k in keys && Eligible(tag, now)(k) ==> keys[f].cooldown <= k.cooldown {
      forall j | 0 <= j < |keys| && Eligible(tag, now)(keys[j]) ensures keys[f].cooldown <= keys[j].cooldown {
        assert keys[j] in keys;
      }
      FirstLeastUnique(keys, Eligible(tag, now), Cooldown(), i, f);
    }
  }

  lemma SomeAvailable(keys: seq<Key>, tag: Option<string>, now: int, f: nat)
    requires f < |keys| && Eligible(tag, now)(keys[f])
    ensures GetAvailableKey(keys, tag, now).Some?
  {
    hide GetAvailableKey;
    NoneAvailableIffAllWait(keys, tag, now);
    assert keys[f] in keys;
  }

  /** Two keys where they do not. */
  lemma HeadsMayDiffer()
    ensures var keys := [Key("a", 30.0, Some(0), None), Key("b", 0.0, None, None)];
            GetAvailableKey(keys, None, 60000) == Some(keys[1]) && GetAllKeys(keys, [], 60000)[0] == keys[0]
  {
  }
}
