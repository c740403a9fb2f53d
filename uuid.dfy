/** `AuctionGrabber.format_uuid` in bot.py: the feed's undashed 32-digit auction
    id rendered in the 8-4-4-4-12 dashed form. */
module Uuid {
  import opened Util

  /** Python's `s[i:j]` for 0 <= i <= j: bounds past the end are clamped. */
  function Slice(s: string, i: nat, j: nat): (r: string)
    requires i <= j
    ensures |r| == Smaller(j, |s|) - Smaller(i, |s|)
  {
    s[Smaller(i, |s|)..Smaller(j, |s|)]
  }

  /** The five groups joined with dashes, as the source's format string does. */
  function FormatUuid(uuid: string): (r: string)
    ensures |r| == Smaller(|uuid|, 32) + 4
  {
    Slice(uuid, 0, 8) + "-" + Slice(uuid, 8, 12) + "-" + Slice(uuid, 12, 16) + "-"
      + Slice(uuid, 16, 20) + "-" + Slice(uuid, 20, 32)
  }

  /** The inverse for well-formed input: drop the four dash positions. */
  function UndashUuid(r: string): (id: string)
    requires |r| == 36
  {
    r[..8] + r[9..13] + r[14..18] + r[19..23] + r[24..]
  }

  predicate IsDash(c: char) {
    c == '-'
  }

  const NOT_DASH: char -> bool := c => !IsDash(c)

  /** The string with every dash removed. */
  function RemoveDashes(s: string): (r: string) {
    Filter(s, NOT_DASH)
  }

  /** For a 32-character id the slices are exact and the result is the five
      groups joined by dashes. */
  lemma FormatGroups(uuid: string)
    requires |uuid| == 32
    ensures FormatUuid(uuid)
            == uuid[..8] + "-" + uuid[8..12] + "-" + uuid[12..16] + "-" + uuid[16..20] + "-" + uuid[20..]
  {
  }

  /** A 32-character id becomes a 36-character string with dashes at 8, 13, 18
      and 23, and every other character is the input's, in order. */
  lemma {:induction false} FormatShape(uuid: string)
    requires |uuid| == 32
    ensures var r := FormatUuid(uuid);
            |r| == 36 && r[8] == '-' && r[13] == '-' && r[18] == '-' && r[23] == '-'
    ensures UndashUuid(FormatUuid(uuid)) == uuid
  {
    var r := FormatUuid(uuid);
    FormatGroups(uuid);
    assert r[..8] == uuid[..8];
    assert r[9..13] == uuid[8..12];
    assert r[14..18] == uuid[12..16];
    assert r[19..23] == uuid[16..20];
    assert r[24..] == uuid[20..];
    assert uuid == uuid[..8] + uuid[8..12] + uuid[12..16] + uuid[16..20] + uuid[20..];
  }

  /** Two 32-character ids with the same dashed form are the same id. */
  lemma FormatInjective(a: string, b: string)
    requires |a| == 32 && |b| == 32
    requires FormatUuid(a) == FormatUuid(b)
    ensures a == b
  {
    FormatShape(a);
    FormatShape(b);
  }

  predicate DashFree(s: string) {
    forall i :: 0 <= i < |s| ==> !IsDash(s[i])
  }

  lemma DashFreeSlice(s: string, i: nat, j: nat)
    requires DashFree(s) && i <= j <= |s|
    ensures DashFree(s[i..j])
  {
    assert forall k :: 0 <= k < j - i ==> s[i..j][k] == s[i + k];
  }

  /** Removing dashes from `a`, a dash and a dash-free group. */
  lemma DashThenGroup(a: string, g: string)
    requires DashFree(g)
    ensures RemoveDashes(a + "-" + g) == RemoveDashes(a) + g
  {
    assert Filter("-", NOT_DASH) == [] by {
      assert "-"[..0] == [];
    }
    FilterAppend(a, "-", NOT_DASH);
    FilterAppend(a + "-", g, NOT_DASH);
    FilterAll(g, NOT_DASH);
  }

  /** Five dash-free groups joined by dashes lose exactly the four dashes. */
  lemma {:induction false} UndashJoined(g0: string, g1: string, g2: string, g3: string, g4: string)
    requires DashFree(g0) && DashFree(g1) && DashFree(g2) && DashFree(g3) && DashFree(g4)
    ensures RemoveDashes(g0 + "-" + g1 + "-" + g2 + "-" + g3 + "-" + g4) == g0 + g1 + g2 + g3 + g4
  {
    FilterAll(g0, NOT_DASH);
    DashThenGroup(g0, g1);
    DashThenGroup(g0 + "-" + g1, g2);
    DashThenGroup(g0 + "-" + g1 + "-" + g2, g3);
    DashThenGroup(g0 + "-" + g1 + "-" + g2 + "-" + g3, g4);
  }

  /** For an id without dashes (the feed's hex digits), deleting the dashes of
      the formatted id gives back the id. */
  lemma {:induction false} RemoveDashesRoundTrip(uuid: string)
    requires |uuid| == 32 && DashFree(uuid)
    ensures RemoveDashes(FormatUuid(uuid)) == uuid
  {
    DashFreeSlice(uuid, 0, 8);
    DashFreeSlice(uuid, 8, 12);
    DashFreeSlice(uuid, 12, 16);
    DashFreeSlice(uuid, 16, 20);
    DashFreeSlice(uuid, 20, 32);
    FormatGroups(uuid);
    UndashJoined(uuid[..8], uuid[8..12], uuid[12..16], uuid[16..20], uuid[20..]);
    assert uuid == uuid[..8] + uuid[8..12] + uuid[12..16] + uuid[16..20] + uuid[20..];
  }
}
