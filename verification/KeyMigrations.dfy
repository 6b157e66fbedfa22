/** The two migrations of the web search keys, one after the other, and the way back from the first. */
module KeyMigrations {
  import opened WebSearchKeys
  import KeyKindMigration
  import KeyOrderMigration

  /**
   Over both migrations a workspace keeps its key, if it held no pin on a key it had turned off: today's
   rule picks what the ranked defaults picked before there was one default per kind.
   */
  lemma ChoiceKeptByBoth(
      before: Keys, beforeRows: Overrides, between: Keys, betweenRows: Overrides, after: Keys, afterRows: Overrides,
      o: OrganizationId, w: WorkspaceId)
    requires KeyKindMigration.Sound(before, beforeRows)
    requires KeyKindMigration.Migrated(before, beforeRows, between, betweenRows)
    requires KeyOrderMigration.Migrated(between, betweenRows, after, afterRows)
    ensures StarredChoice(after, afterRows, (o, Search), w) == RankedChoice(before, beforeRows, (o, Search), w)
            <==> !KeyKindMigration.Masked(before, beforeRows, o, w)
  {
    hide *;
    KeyKindMigration.SoundKeys(before, beforeRows);
    KeyKindMigration.OneDefaultAfter(before, beforeRows, between, betweenRows);
    KeyKindMigration.ChoiceKept(before, beforeRows, between, betweenRows, o, w);
    KeyOrderMigration.ChoiceKept(between, betweenRows, after, afterRows, (o, Search), w);
  }

  // ---- downgrading the first ------------------------------------------------------------------

  /** A row the previous schema cannot hold. */
  predicate Unheld(key: Key) {
    key.kind != Search || !key.hasSecret
  }

  /** Delete what the previous schema cannot hold: the overrides first, then the keys they name. */
  method Downgrade(db: Tables)
    modifies db
    ensures db.keys == map k | k in old(db.keys) && !Unheld(old(db.keys)[k]) :: old(db.keys)[k]
    ensures db.overrides == map p | p in old(db.overrides)
      && !(p.1 in old(db.keys) && Unheld(old(db.keys)[p.1])) :: old(db.overrides)[p]
    ensures forall k :: k in db.keys <==>
      k in old(db.keys) && old(db.keys)[k].kind == Search && old(db.keys)[k].hasSecret
    ensures forall p :: p in db.overrides <==> p in old(db.overrides) && (p.1 in old(db.keys) ==> p.1 in db.keys)
  {
    var unheld := set k | k in db.keys && Unheld(db.keys[k]);
    db.overrides := map p | p in db.overrides && p.1 !in unheld :: db.overrides[p];
    db.keys := db.keys - unheld;
  }

  /** `uq_org_web_search_keys_org_kind_provider_name`. */
  ghost predicate NamesUniquePerKind(keys: Keys) {
    forall a, b :: a in keys && b in keys && HaveOneName(keys[a], keys[b]) && keys[a].kind == keys[b].kind ==> a == b
  }

  predicate HaveOneName(a: Key, b: Key) {
    a.organization == b.organization && a.provider == b.provider && a.name == b.name
  }

  /** What the previous schema enforces: a secret, one live default per provider, one name per provider. */
  ghost predicate FitsThePreviousSchema(keys: Keys) {
    && (forall k :: k in keys ==> keys[k].kind == Search && keys[k].hasSecret)
    && (forall a, b :: a in keys && b in keys && a != b ==> MayBothStand(keys[a], keys[b]))
  }

  /** Of one organization and provider two keys differ in name, and not both are live defaults. */
  ghost predicate MayBothStand(a: Key, b: Key) {
    || a.organization != b.organization || a.provider != b.provider
    || (a.name != b.name && (a.archived || !a.isDefault || b.archived || !b.isDefault))
  }

  /**
   What the downgrade leaves fits the previous schema, and every override left still names a key. An
   override goes exactly when its key does, and no key the previous schema can hold is lost.
   */
  lemma DowngradeFits(before: Keys, beforeRows: Overrides, after: Keys, afterRows: Overrides)
    requires OneDefaultPerKind(before) && NamesUniquePerKind(before) && OverridesNameKeys(before, beforeRows)
    requires after == map k | k in before && !Unheld(before[k]) :: before[k]
    requires afterRows == map p | p in beforeRows && !(p.1 in before && Unheld(before[p.1])) :: beforeRows[p]
    ensures FitsThePreviousSchema(after) && OverridesNameKeys(after, afterRows)
    ensures forall p :: p in beforeRows ==> (p in afterRows <==> p.1 in after)
  {
    forall a, b | a in after && b in after && a != b ensures MayBothStand(after[a], after[b]) {
      var g := GroupOf(before[a]);
      assert a in LiveDefaults(before, g) && b in LiveDefaults(before, g) ==> a == b;
      assert HaveOneName(before[a], before[b]) ==> a == b;
    }
  }
}
