/** The enchantment table of constants.py: for every enchantment whose single-
    enchantment books are priced on their own, the lowest level that counts. */
module Enchants {

  const ENCHANTS: map<string, int> := map[
    "impaling" := 3,
    "luck" := 6,
    "ultimate_combo" := 1,
    "ultimate_wise" := 1,
    "critical" := 6,
    "looting" := 4,
    "ender_slayer" := 6,
    "scavenger" := 4,
    "vampirism" := 6,
    "experience" := 4,
    "life_steal" := 4,
    "execute" := 5,
    "giant_killer" := 6,
    "sharpness" := 6,
    "power" := 6,
    "growth" := 6,
    "protection" := 6,
    "smite" := 6,
    "bane_of_arthropods" := 6,
    "angler" := 6,
    "caster" := 6,
    "frail" := 6,
    "luck_of_the_sea" := 6,
    "lure" := 6,
    "magnet" := 6,
    "spiked_hook" := 6
  ]

  /** An enchantment identifier as the feed spells it: lower-case ASCII letters
      and underscores, and not empty. */
  predicate IsEnchantId(s: string) {
    |s| > 0 && forall i :: 0 <= i < |s| ==> IdChar(s[i])
  }

  predicate IdChar(c: char) {
    'a' <= c <= 'z' || c == '_'
  }

  // Counting the 26 literal keys, or checking all of their characters, in one
  // proof step exceeds the solver's resource budget. The facts about the keys
  // are therefore proved over two halves of the key set and over three groups
  // of names, then combined.

  /** The first thirteen entries of the table, in source order. */
  const FIRST_NAMES: set<string> := {
    "impaling", "luck", "ultimate_combo", "ultimate_wise", "critical",
    "looting", "ender_slayer", "scavenger", "vampirism", "experience",
    "life_steal", "execute", "giant_killer"}

  /** The last thirteen entries of the table, in source order. */
  const LAST_NAMES: set<string> := {
    "sharpness", "power", "growth", "protection", "smite",
    "bane_of_arthropods", "angler", "caster", "frail", "luck_of_the_sea",
    "lure", "magnet", "spiked_hook"}

  lemma TableNames()
    ensures ENCHANTS.Keys == FIRST_NAMES + LAST_NAMES
  {
  }

  lemma FirstHalfSize()
    ensures |FIRST_NAMES| == 13
  {
  }

  lemma LastHalfSize()
    ensures |LAST_NAMES| == 13
  {
  }

  lemma HalvesDisjoint()
    ensures FIRST_NAMES !! LAST_NAMES
  {
  }

  /** The table lists 26 distinct enchantments. */
  lemma TableSize()
    ensures |ENCHANTS| == 26
  {
    TableNames();
    FirstHalfSize();
    LastHalfSize();
    HalvesDisjoint();
  }

  lemma IdsPart0()
    ensures IsEnchantId("impaling")
      && IsEnchantId("luck")
      && IsEnchantId("ultimate_combo")
      && IsEnchantId("ultimate_wise")
      && IsEnchantId("critical")
      && IsEnchantId("looting")
      && IsEnchantId("ender_slayer")
      && IsEnchantId("scavenger")
      && IsEnchantId("vampirism")
  {
  }

  lemma IdsPart1()
    ensures IsEnchantId("experience")
      && IsEnchantId("life_steal")
      && IsEnchantId("execute")
      && IsEnchantId("giant_killer")
      && IsEnchantId("sharpness")
      && IsEnchantId("power")
      && IsEnchantId("growth")
      && IsEnchantId("protection")
      && IsEnchantId("smite")
  {
  }

  lemma IdsPart2()
    ensures IsEnchantId("bane_of_arthropods")
      && IsEnchantId("angler")
      && IsEnchantId("caster")
      && IsEnchantId("frail")
      && IsEnchantId("luck_of_the_sea")
      && IsEnchantId("lure")
      && IsEnchantId("magnet")
      && IsEnchantId("spiked_hook")
  {
  }

  lemma FirstNamesAreIds()
    ensures forall e :: e in FIRST_NAMES ==> IsEnchantId(e)
  {
    IdsPart0();
    IdsPart1();
  }

  lemma LastNamesAreIds()
    ensures forall e :: e in LAST_NAMES ==> IsEnchantId(e)
  {
    IdsPart1();
    IdsPart2();
  }

  /** Every entry is named by a lower-case identifier. */
  lemma KeysAreIds()
    ensures forall e :: e in ENCHANTS ==> IsEnchantId(e)
  {
    TableNames();
    FirstNamesAreIds();
    LastNamesAreIds();
  }

  /** Every minimum level lies between 1 and 6. */
  lemma LevelsInRange()
    ensures forall e :: e in ENCHANTS ==> 1 <= ENCHANTS[e] <= 6
  {
  }

  /** The two ultimate enchantments qualify from level 1. */
  lemma UltimateThresholds()
    ensures ENCHANTS["ultimate_combo"] == 1 && ENCHANTS["ultimate_wise"] == 1
  {
  }

  /** impaling needs 3, looting, scavenger, experience and life_steal need 4,
      execute needs 5. */
  lemma MiddleThresholds()
    ensures ENCHANTS["impaling"] == 3
    ensures ENCHANTS["looting"] == 4 && ENCHANTS["scavenger"] == 4
    ensures ENCHANTS["experience"] == 4 && ENCHANTS["life_steal"] == 4
    ensures ENCHANTS["execute"] == 5
  {
  }

  /** The common damage and protection enchantments need level 6. */
  lemma TopThresholds()
    ensures ENCHANTS["sharpness"] == 6 && ENCHANTS["power"] == 6 && ENCHANTS["protection"] == 6
    ensures ENCHANTS["smite"] == 6 && ENCHANTS["bane_of_arthropods"] == 6
  {
  }

  /** Only the two ultimate enchantments qualify from level 1; every other entry
      asks for level 3 or more. */
  lemma OnlyUltimatesFromLevelOne()
    ensures forall e :: e in ENCHANTS && ENCHANTS[e] == 1 <==> e == "ultimate_combo" || e == "ultimate_wise"
    ensures forall e :: e in ENCHANTS && ENCHANTS[e] != 1 ==> ENCHANTS[e] >= 3
  {
  }
}
