/** The decoded item tree and its canonical price key (`AuctionGrabber.get_name`
    in bot.py). Decoding the base64/gzip NBT payload is not modelled: the model
    starts from the decoded tree. */
module ItemNames {
  import opened Util
  import opened Enchants

  const ENCHANTED_BOOK: string := "ENCHANTED_BOOK"
  const PET: string := "PET"
  const TIER_BOOST: string := "PET_ITEM_TIER_BOOST"
  const EPIC: string := "EPIC"
  const LEGENDARY: string := "LEGENDARY"

  /** One entry of the `enchantments` compound: its key and its level. */
  datatype Enchantment = Enchantment(name: string, level: int)

  /** The parsed `petInfo` document: rarity tier, species and, when present,
      the held item. */
  datatype PetInfo = PetInfo(tier: string, petType: string, heldItem: Option<string>)

  /** The parts of a decoded item that the bot reads: `ExtraAttributes.id`, the
      stack `Count`, the `enchantments` compound when present (entries in
      stored order) and, for pets, the parsed `petInfo`. */
  datatype ItemTag = ItemTag(
    id: string,
    count: int,
    enchantments: Option<seq<Enchantment>>,
    petInfo: Option<PetInfo>)

  /** A tree the bot can process without raising: a book carries its
      `enchantments` compound and a pet its `petInfo` (the key lookups of
      `get_name`), and the stack count is not zero (it divides the starting
      bid of a sampled listing). */
  predicate Processable(t: ItemTag) {
    && (t.id == ENCHANTED_BOOK ==> t.enchantments.Some?)
    && (t.id == PET ==> t.petInfo.Some?)
    && t.count != 0
  }

  type Item = t: ItemTag | Processable(t) witness ItemTag("", 1, None, None)

  /** `str.upper` on one character; the enchantment keys are ASCII, where it is exact. */
  function UpperChar(c: char): (r: char) {
    if 'a' <= c <= 'z' then (c as int - 32) as char else c
  }

  function Upper(s: string): (r: string)
    ensures |r| == |s|
    ensures forall i :: 0 <= i < |s| ==> r[i] == UpperChar(s[i])
  {
    seq(|s|, i requires 0 <= i < |s| => UpperChar(s[i]))
  }

  /** A book counts as one enchantment when it holds exactly one entry, that
      entry is in the table, and its level reaches the table's minimum. */
  predicate SingleQualifyingEnchant(t: ItemTag) {
    && t.enchantments.Some?
    && |t.enchantments.value| == 1
    && t.enchantments.value[0].name in ENCHANTS
    && t.enchantments.value[0].level >= ENCHANTS[t.enchantments.value[0].name]
  }

  /** The pet's rarity after the tier-boost item is taken into account. */
  function PetTier(info: PetInfo): (tier: string)
    ensures tier != info.tier <==> info.tier == EPIC && info.heldItem == Some(TIER_BOOST)
    ensures tier != info.tier ==> tier == LEGENDARY
  {
    if info.heldItem == Some(TIER_BOOST) && info.tier == EPIC then LEGENDARY else info.tier
  }

  /** The canonical key of an item: enchanted books with one qualifying enchant
      become that enchant's name in capitals, pets become tier_type_PET, and
      everything else keeps its id. */
  function CanonicalName(item: Item): (r: string)
    ensures item.id != ENCHANTED_BOOK && item.id != PET ==> r == item.id
    ensures item.id == ENCHANTED_BOOK && !SingleQualifyingEnchant(item) ==> r == ENCHANTED_BOOK
    ensures item.id == PET ==> |r| >= 5 && r[|r| - 4..] == "_PET"
  {
    if item.id == ENCHANTED_BOOK && SingleQualifyingEnchant(item) then
      Upper(item.enchantments.value[0].name)
    else if item.id == PET then
      var info := item.petInfo.value;
      PetTier(info) + "_" + info.petType + "_PET"
    else
      item.id
  }

  lemma NoTableEntryUppercasesToBook()
    ensures forall e :: e in ENCHANTS ==> |e| != |ENCHANTED_BOOK| || e[0] != 'e'
  {
  }

  /** An enchanted book is priced under its own enchantment exactly when it holds
      one qualifying enchantment; that key is the enchantment's name in capitals
      and is never the generic book key. */
  lemma {:induction false} BookKey(item: Item)
    requires item.id == ENCHANTED_BOOK
    ensures CanonicalName(item) != ENCHANTED_BOOK <==> SingleQualifyingEnchant(item)
    ensures SingleQualifyingEnchant(item) ==>
              CanonicalName(item) == Upper(item.enchantments.value[0].name)
              && forall i :: 0 <= i < |CanonicalName(item)| ==> !('a' <= CanonicalName(item)[i] <= 'z')
  {
    if SingleQualifyingEnchant(item) {
      var e := item.enchantments.value[0].name;
      NoTableEntryUppercasesToBook();
      KeysAreIds();
      assert IsEnchantId(e);
      var r := Upper(e);
      if |e| == |ENCHANTED_BOOK| {
        assert e[0] != 'e' && IdChar(e[0]);
        assert r[0] == UpperChar(e[0]) != 'E';
        assert r[0] != ENCHANTED_BOOK[0];
      }
      assert r != ENCHANTED_BOOK;
    }
  }

  /** A pet's key is its (possibly promoted) tier, `_`, its species and `_PET`;
      an EPIC pet holding the tier boost is keyed as LEGENDARY, and no other
      tier or held item changes the tier. */
  lemma PetKey(item: Item)
    requires item.id == PET
    ensures var info := item.petInfo.value;
            CanonicalName(item) == PetTier(info) + "_" + info.petType + "_PET"
    ensures var info := item.petInfo.value;
            info.tier == EPIC && info.heldItem == Some(TIER_BOOST) ==>
              CanonicalName(item) == LEGENDARY + "_" + info.petType + "_PET"
    ensures var info := item.petInfo.value;
            !(info.tier == EPIC && info.heldItem == Some(TIER_BOOST)) ==>
              CanonicalName(item) == info.tier + "_" + info.petType + "_PET"
  {
  }
}
