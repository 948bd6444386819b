/** The Game object of Game.cpp: the monster registry loaded once, and the
    single-kill and batch slaying that tally monster counts and dropped loot into a
    LootSession (the payload of the loot-dropped notification). */
module GameSession {
  import opened GameTypes
  import opened MonsterLoot

  /** Treasure type to count, monster type to count, monster type to treasures. */
  type TreasureMap = map<TreasureType, int>

  datatype LootSession = LootSession(
    monsters: set<MonsterType>,
    monsterCounts: map<MonsterType, int>,
    lootMap: map<MonsterType, TreasureMap>)

  const EmptySession: LootSession := LootSession({}, map[], map[])

  /** One slain monster: its type and the drops its roll produced. */
  datatype Kill = Kill(monster: MonsterType, drops: seq<Treasure>)

  /** unordered_map::operator[] on a count map reads a missing key as 0. */
  function Get<K>(m: map<K, int>, k: K): int {
    if k in m then m[k] else 0
  }

  /** `counts[k]++`: insert the key if missing, then increment. */
  function Bump<K>(m: map<K, int>, k: K): map<K, int> {
    m[k := Get(m, k) + 1]
  }

  /** `for (auto treasure : drops) treasures[treasure.type]++;` */
  function TallyDrops(tm: TreasureMap, drops: seq<Treasure>): TreasureMap {
    if drops == [] then tm
    else Bump(TallyDrops(tm, drops[..|drops| - 1]), drops[|drops| - 1].kind)
  }

  /** The bookkeeping of one kill in a session. */
  function RecordKill(s: LootSession, k: Kill): LootSession {
    var treasures := if k.monster in s.lootMap then s.lootMap[k.monster] else map[];
    LootSession(
      s.monsters + {k.monster},
      Bump(s.monsterCounts, k.monster),
      s.lootMap[k.monster := TallyDrops(treasures, k.drops)])
  }

  /** The session after recording the kills in order. */
  function Tally(kills: seq<Kill>): LootSession {
    if kills == [] then EmptySession
    else RecordKill(Tally(kills[..|kills| - 1]), kills[|kills| - 1])
  }

  /** Number of kills of monster type t. */
  function KillsOf(kills: seq<Kill>, t: MonsterType): nat {
    if kills == [] then 0
    else KillsOf(kills[..|kills| - 1], t) + (if kills[|kills| - 1].monster == t then 1 else 0)
  }

  /** Number of drops of treasure type tr. */
  function DropsOf(drops: seq<Treasure>, tr: TreasureType): nat {
    if drops == [] then 0
    else DropsOf(drops[..|drops| - 1], tr) + (if drops[|drops| - 1].kind == tr then 1 else 0)
  }

  /** Number of drops of treasure type tr from kills of monster type t. */
  function LootCount(kills: seq<Kill>, t: MonsterType, tr: TreasureType): nat {
    if kills == [] then 0
    else
      var last := kills[|kills| - 1];
      LootCount(kills[..|kills| - 1], t, tr) + (if last.monster == t then DropsOf(last.drops, tr) else 0)
  }

  /** Some key of a non-empty count map. */
  ghost function PickKey(m: map<MonsterType, int>): (k: MonsterType)
    requires m != map[]
    ensures k in m
  {
    assert exists k :: k in m by {
      if forall k :: k !in m {
        assert false;
      }
    }
    var k :| k in m; k
  }

  /** The sum of a count map's values (what the view accumulates as the total). */
  ghost function SumValues(m: map<MonsterType, int>): int
    decreases |m.Keys|
  {
    if m == map[] then 0
    else
      var k := PickKey(m);
      assert (m - {k}).Keys < m.Keys;
      m[k] + SumValues(m - {k})
  }

  /** The sum can be split at any key, not only the one SumValues picks. */
  lemma {:induction false} SumValuesRemove(m: map<MonsterType, int>, k: MonsterType)
    requires k in m
    ensures SumValues(m) == m[k] + SumValues(m - {k})
    decreases |m.Keys|
  {
    var j := PickKey(m);
    if j != k {
      assert (m - {j}).Keys < m.Keys;
      assert (m - {k}).Keys < m.Keys;
      SumValuesRemove(m - {j}, k);
      SumValuesRemove(m - {k}, j);
      assert m - {j} - {k} == m - {k} - {j};
    }
  }

  /** Incrementing one key's count raises the total by exactly one. */
  lemma SumValuesBump(m: map<MonsterType, int>, k: MonsterType)
    ensures SumValues(Bump(m, k)) == SumValues(m) + 1
  {
    var m' := Bump(m, k);
    SumValuesRemove(m', k);
    if k in m {
      SumValuesRemove(m, k);
      assert m' - {k} == m - {k};
    } else {
      assert m' - {k} == m;
    }
  }

  /** Tallying drops adds, per treasure type, the number of drops of that type;
      a type becomes a key exactly when it was one or drops. */
  lemma {:induction false} TallyDropsCounts(tm: TreasureMap, drops: seq<Treasure>)
    ensures forall tr :: Get(TallyDrops(tm, drops), tr) == Get(tm, tr) + DropsOf(drops, tr)
    ensures forall tr :: tr in TallyDrops(tm, drops) <==> tr in tm || DropsOf(drops, tr) > 0
  {
    if drops != [] {
      TallyDropsCounts(tm, drops[..|drops| - 1]);
    }
  }

  /** A monster type is in the session, with a count and a loot entry, exactly
      when at least one monster of that type was slain. */
  lemma {:induction false} TallyMonsters(kills: seq<Kill>)
    ensures forall t :: t in Tally(kills).monsters <==> KillsOf(kills, t) > 0
    ensures Tally(kills).monsterCounts.Keys == Tally(kills).monsters
    ensures Tally(kills).lootMap.Keys == Tally(kills).monsters
  {
    if kills != [] {
      TallyMonsters(kills[..|kills| - 1]);
    }
  }

  /** Each monster type's count is the number of kills of that type, and all
      counts add up to the number of kills. */
  lemma {:induction false} TallyCounts(kills: seq<Kill>)
    ensures forall t :: Get(Tally(kills).monsterCounts, t) == KillsOf(kills, t)
    ensures SumValues(Tally(kills).monsterCounts) == |kills|
  {
    if kills == [] {
      assert Tally(kills).monsterCounts == map[];
    } else {
      var init := kills[..|kills| - 1];
      TallyCounts(init);
      SumValuesBump(Tally(init).monsterCounts, kills[|kills| - 1].monster);
    }
  }

  /** lootMap[t][tr] is the number of drops of treasure type tr from kills of
      monster type t, and tr is a key exactly when at least one such drop exists. */
  lemma {:induction false} TallyLoot(kills: seq<Kill>)
    ensures forall t, tr :: t in Tally(kills).lootMap ==>
      Get(Tally(kills).lootMap[t], tr) == LootCount(kills, t, tr)
    ensures forall t, tr :: t in Tally(kills).lootMap ==>
      (tr in Tally(kills).lootMap[t] <==> LootCount(kills, t, tr) > 0)
  {
    if kills != [] {
      var init := kills[..|kills| - 1];
      var last := kills[|kills| - 1];
      TallyLoot(init);
      var s := Tally(init);
      var treasures := if last.monster in s.lootMap then s.lootMap[last.monster] else map[];
      TallyDropsCounts(treasures, last.drops);
      forall t, tr | t in Tally(kills).lootMap && t != last.monster
        ensures Get(Tally(kills).lootMap[t], tr) == LootCount(kills, t, tr)
        ensures tr in Tally(kills).lootMap[t] <==> LootCount(kills, t, tr) > 0
      {
      }
      forall tr
        ensures Get(Tally(kills).lootMap[last.monster], tr) == LootCount(kills, last.monster, tr)
        ensures tr in Tally(kills).lootMap[last.monster] <==> LootCount(kills, last.monster, tr) > 0
      {
        if last.monster !in s.lootMap {
          TallyLootAbsent(init, last.monster, tr);
        }
      }
    }
  }

  /** A monster type with no loot entry has had no kills that dropped anything. */
  lemma {:induction false} TallyLootAbsent(kills: seq<Kill>, t: MonsterType, tr: TreasureType)
    requires t !in Tally(kills).lootMap
    ensures LootCount(kills, t, tr) == 0
  {
    if kills != [] {
      TallyLootAbsent(kills[..|kills| - 1], t, tr);
    }
  }

  /** The drops of one RerollLoot of a monster whose template tables are ts: the
      roll over SOME partition of ts, as std::partition leaves the order open. */
  ghost predicate IsRerollOf(ts: seq<LootTable>, ds: seq<real>, drops: seq<Treasure>) {
    exists ps :: IsPartitionOf(ps, ts) && |ds| > |ps| && drops == LootFor(ps, ds)
  }

  /** The Game: the registry of monster templates keyed by type (std::set ordered by
      type keeps one monster per type), whether loading finished, and the history
      map that each slaying clears. */
  class Game {
    var monsterData: map<MonsterType, MonsterTemplate>
    var isDataLoaded: bool
    var droppedLootMap: map<MonsterType, TreasureMap>

    ghost predicate Valid()
      reads this
    {
      forall t :: t in monsterData ==> monsterData[t].kind == t
    }

    constructor ()
      ensures Valid()
      ensures monsterData == map[] && !isDataLoaded && droppedLootMap == map[]
    {
      monsterData := map[];
      isDataLoaded := false;
      droppedLootMap := map[];
    }

    /** Game::LoadData with the JSON parsing factored out: `records` are the parsed
        monsters, or None when the file did not open. Inserting into the set keeps
        the first monster of each type. */
    method LoadData(records: Option<seq<MonsterTemplate>>) returns (loaded: bool)
      requires Valid()
      modifies this
      ensures Valid()
      ensures droppedLootMap == old(droppedLootMap)
      ensures records.None? ==> !loaded && monsterData == old(monsterData) && isDataLoaded == old(isDataLoaded)
      ensures records.Some? ==>
        loaded && isDataLoaded && monsterData == InsertAll(old(monsterData), records.value)
    {
      if records.None? {
        return false;
      }
      var rs := records.value;
      var i := 0;
      while i < |rs|
        invariant 0 <= i <= |rs|
        invariant Valid()
        invariant InsertAll(monsterData, rs[i..]) == InsertAll(old(monsterData), rs)
        invariant droppedLootMap == old(droppedLootMap)
      {
        assert rs[i..][1..] == rs[i + 1..];
        if rs[i].kind !in monsterData {
          monsterData := monsterData[rs[i].kind := rs[i]];
        }
        i := i + 1;
      }
      isDataLoaded := true;
      loaded := true;
    }

    /** Game::CreateMonsterForType: a fresh copy of the registered monster. The
        source dereferences end() for an unknown type, so the type must be known. */
    method CreateMonsterForType(t: MonsterType) returns (m: Monster)
      requires t in monsterData
      ensures fresh(m) && fresh(m.tables)
      ensures m.kind == monsterData[t].kind && m.name == monsterData[t].name
      ensures m.tables[..] == monsterData[t].tables && m.lootDrops == []
    {
      m := new Monster(monsterData[t]);
    }

    /** The monster type a slaying uses: the requested one, or the random pick. */
    static function ChosenType(kind: Option<MonsterType>, pick: MonsterType): MonsterType {
      if kind.Some? then kind.value else pick
    }

    /** Game::SlayMonster. `pick` stands for CreateRandomMonster's draw and `ds` for
        the roll's uniform draws. The session is notified only if something dropped. */
    method SlayMonster(kind: Option<MonsterType>, pick: MonsterType, ds: seq<real>)
      returns (notified: Option<LootSession>, ghost kill: Kill)
      requires Valid()
      requires isDataLoaded ==>
        ChosenType(kind, pick) in monsterData && |ds| > |monsterData[ChosenType(kind, pick)].tables|
      modifies this
      ensures Valid() && droppedLootMap == map[]
      ensures monsterData == old(monsterData) && isDataLoaded == old(isDataLoaded)
      ensures !isDataLoaded ==> notified == None
      ensures isDataLoaded ==>
        kill.monster == ChosenType(kind, pick) &&
        IsRerollOf(monsterData[ChosenType(kind, pick)].tables, ds, kill.drops) &&
        notified == (if kill.drops == [] then None else Some(Tally([kill])))
    {
      droppedLootMap := map[];
      kill := Kill(NONE, []);
      if !isDataLoaded {
        notified := None;
        return;
      }
      var m := CreateMonsterForType(ChosenType(kind, pick));
      ghost var before := m.tables[..];
      m.RerollLoot(ds);
      RerollOfTemplate(monsterData[ChosenType(kind, pick)].tables, before, m.tables[..], ds, m.lootDrops);
      kill := Kill(m.kind, m.lootDrops);
      if m.lootDrops == [] {
        notified := None;
        return;
      }
      var session := RecordLoot(EmptySession, m.kind, m.lootDrops);
      assert [kill][..0] == [];
      notified := Some(session);
    }

    /** The monster type of the i-th kill of a batch: the requested type, or the
        random pick made for that iteration (picks[0] is the pick made before the
        loop, whose monster the first iteration replaces). */
    static function BatchType(kind: Option<MonsterType>, picks: seq<MonsterType>, i: nat): MonsterType {
      if kind.Some? then kind.value else if i + 1 < |picks| then picks[i + 1] else NONE
    }

    /** What SlayBatchOfMonsters needs of its inputs once data is loaded: the count
        its loop runs down (a negative one would not end), a known type or enough
        random picks of known types, and enough uniform draws for each kill's roll. */
    ghost predicate BatchInputs(count: int, kind: Option<MonsterType>, picks: seq<MonsterType>,
                                draws: seq<seq<real>>)
      reads this
    {
      && count >= 0
      && |draws| >= count
      && ChosenType(kind, if picks == [] then NONE else picks[0]) in monsterData
      && (kind.None? ==> |picks| > count)
      && forall i: nat :: i < count ==>
           BatchType(kind, picks, i) in monsterData &&
           |draws[i]| > |monsterData[BatchType(kind, picks, i)].tables|
    }

    /** Game::SlayBatchOfMonsters: `count` kills of one type, or of a fresh random
        type per kill, tallied into one session that is always notified. */
    method SlayBatchOfMonsters(count: int, kind: Option<MonsterType>, picks: seq<MonsterType>,
                               draws: seq<seq<real>>)
      returns (notified: Option<LootSession>, ghost kills: seq<Kill>)
      requires Valid()
      requires isDataLoaded ==> BatchInputs(count, kind, picks, draws)
      modifies this
      ensures Valid()
      ensures monsterData == old(monsterData) && isDataLoaded == old(isDataLoaded)
      ensures droppedLootMap == if isDataLoaded then map[] else old(droppedLootMap)
      ensures !isDataLoaded ==> notified == None
      ensures isDataLoaded ==> notified == Some(Tally(kills)) && |kills| == count
      ensures isDataLoaded ==> forall i: nat :: i < count ==>
        kills[i].monster == BatchType(kind, picks, i) &&
        IsRerollOf(monsterData[BatchType(kind, picks, i)].tables, draws[i], kills[i].drops)
    {
      kills := [];
      if !isDataLoaded {
        notified := None;
        return;
      }
      droppedLootMap := map[];
      var session := EmptySession;
      var isRandom := kind.None?;
      var m := CreateMonsterForType(ChosenType(kind, if picks == [] then NONE else picks[0]));

      var remaining := count;
      while remaining > 0
        invariant 0 <= remaining <= count
        invariant |kills| == count - remaining
        invariant session == Tally(kills)
        invariant fresh(m) && fresh(m.tables)
        invariant m.kind in monsterData
        invariant !isRandom ==> m.kind == kind.value
        invariant multiset(m.tables[..]) == multiset(monsterData[m.kind].tables)
        invariant monsterData == old(monsterData) && isDataLoaded && Valid()
        invariant droppedLootMap == map[]
        invariant forall i: nat :: i < |kills| ==>
          kills[i].monster == BatchType(kind, picks, i) &&
          IsRerollOf(monsterData[BatchType(kind, picks, i)].tables, draws[i], kills[i].drops)
      {
        var n := count - remaining;
        remaining := remaining - 1;
        assert BatchType(kind, picks, n) in monsterData;
        if isRandom {
          assert BatchType(kind, picks, n) == picks[n + 1];
          m := CreateMonsterForType(picks[n + 1]);
        }
        assert m.kind == BatchType(kind, picks, n);
        var kill := KillOnce(m, draws[n], monsterData[m.kind].tables);
        session := RecordLoot(session, kill.monster, kill.drops);
        assert n == |kills|;
        assert kill.monster == BatchType(kind, picks, n);
        assert IsRerollOf(monsterData[BatchType(kind, picks, n)].tables, draws[n], kill.drops);
        ghost var kills' := kills + [kill];
        assert kills'[..|kills|] == kills;
        forall i: nat | i < |kills'|
          ensures kills'[i].monster == BatchType(kind, picks, i)
          ensures IsRerollOf(monsterData[BatchType(kind, picks, i)].tables, draws[i], kills'[i].drops)
        {
          if i < |kills| {
            assert kills'[i] == kills[i];
          } else {
            assert i == n && kills'[i] == kill;
          }
        }
        kills := kills';
      }
      notified := Some(session);
    }
  }

  /** One RerollLoot of a monster copied from a template, recorded as a kill. */
  method KillOnce(m: Monster, ds: seq<real>, ghost template: seq<LootTable>) returns (kill: Kill)
    requires multiset(m.tables[..]) == multiset(template)
    requires |ds| > m.tables.Length
    modifies m, m.tables
    ensures kill.monster == m.kind && kill.drops == m.lootDrops
    ensures IsRerollOf(template, ds, kill.drops)
    ensures multiset(m.tables[..]) == multiset(template)
  {
    ghost var before := m.tables[..];
    m.RerollLoot(ds);
    RerollOfTemplate(template, before, m.tables[..], ds, m.lootDrops);
    kill := Kill(m.kind, m.lootDrops);
  }

  /** A roll of a monster copied from a template, whose tables are a permutation of
      the template's, is a reroll of the template, and keeps its tables a
      permutation of the template's. */
  lemma RerollOfTemplate(template: seq<LootTable>, before: seq<LootTable>, after: seq<LootTable>,
                         ds: seq<real>, drops: seq<Treasure>)
    requires multiset(before) == multiset(template)
    requires IsPartitionOf(after, before)
    requires |ds| > |after| && drops == LootFor(after, ds)
    ensures IsRerollOf(template, ds, drops)
    ensures multiset(after) == multiset(template)
  {
    assert IsPartitionOf(after, template);
  }

  /** The bookkeeping of one kill as Game.cpp writes it: count the monster, tally
      each drop into the monster's treasure map, and add the monster to the set. */
  method RecordLoot(session: LootSession, t: MonsterType, drops: seq<Treasure>) returns (s: LootSession)
    ensures s == RecordKill(session, Kill(t, drops))
  {
    s := session.(monsterCounts := Bump(session.monsterCounts, t));
    var treasures := if t in s.lootMap then s.lootMap[t] else map[];
    treasures := TallyLoop(treasures, drops);
    s := s.(lootMap := s.lootMap[t := treasures]);
    s := s.(monsters := s.monsters + {t});
  }

  /** The inner `for (auto treasure : m.lootDrops) treasures[treasure.type]++;` */
  method TallyLoop(tm: TreasureMap, drops: seq<Treasure>) returns (treasures: TreasureMap)
    ensures treasures == TallyDrops(tm, drops)
  {
    treasures := tm;
    var j := 0;
    while j < |drops|
      invariant 0 <= j <= |drops|
      invariant treasures == TallyDrops(tm, drops[..j])
    {
      assert drops[..j + 1][..j] == drops[..j];
      treasures := Bump(treasures, drops[j].kind);
      j := j + 1;
    }
    assert drops[..|drops|] == drops;
  }

  /** set::insert for each record in turn: a type already present keeps its monster. */
  function InsertAll(m: map<MonsterType, MonsterTemplate>, records: seq<MonsterTemplate>)
    : map<MonsterType, MonsterTemplate>
    decreases |records|
  {
    if records == [] then m
    else InsertAll(if records[0].kind in m then m else m[records[0].kind := records[0]], records[1..])
  }

  /** The first record of type t, if any. */
  function FirstOfKind(records: seq<MonsterTemplate>, t: MonsterType): Option<MonsterTemplate> {
    if records == [] then None
    else if records[0].kind == t then Some(records[0])
    else FirstOfKind(records[1..], t)
  }

  /** Loading never replaces a monster already registered, and registers under each
      new type the first record of that type; a registry whose keys are their
      monsters' types stays so. */
  lemma {:induction false} InsertAllKeeps(m: map<MonsterType, MonsterTemplate>, records: seq<MonsterTemplate>)
    ensures forall t :: t in m ==> t in InsertAll(m, records) && InsertAll(m, records)[t] == m[t]
    ensures forall t :: t !in m ==>
      (t in InsertAll(m, records) <==> FirstOfKind(records, t).Some?) &&
      (t in InsertAll(m, records) ==> InsertAll(m, records)[t] == FirstOfKind(records, t).value)
    ensures (forall t :: t in m ==> m[t].kind == t) ==>
            forall t :: t in InsertAll(m, records) ==> InsertAll(m, records)[t].kind == t
    decreases |records|
  {
    if records != [] {
      var m' := if records[0].kind in m then m else m[records[0].kind := records[0]];
      InsertAllKeeps(m', records[1..]);
      FirstOfKindHasKind(records);
    }
  }

  lemma {:induction false} FirstOfKindHasKind(records: seq<MonsterTemplate>)
    ensures forall t :: FirstOfKind(records, t).Some? ==> FirstOfKind(records, t).value.kind == t
  {
    if records != [] {
      FirstOfKindHasKind(records[1..]);
    }
  }
}
