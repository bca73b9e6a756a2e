/** The string operations the replay parsers use to normalise unit names (ASCII letter case). */
module Names {

  function LowerChar(c: char): char {
    if 'A' <= c <= 'Z' then c - 'A' + 'a' else c
  }

  function ToLower(s: string): string {
    seq(|s|, i requires 0 <= i < |s| => LowerChar(s[i]))
  }

  /** `sub` occurs in `s` at index `i`. */
  predicate OccursAt(s: string, sub: string, i: nat) {
    i + |sub| <= |s| && s[i..i + |sub|] == sub
  }

  /** The first index at or after `i` where `sub` occurs, or -1. */
  function IndexFrom(s: string, sub: string, i: nat): (r: int)
    ensures r == -1 || (i <= r && OccursAt(s, sub, r))
    ensures r == -1 ==> forall k: nat | i <= k :: !OccursAt(s, sub, k)
    ensures r != -1 ==> forall k: nat | i <= k < r :: !OccursAt(s, sub, k)
    decreases |s| - i
  {
    if OccursAt(s, sub, i) then i else if i + |sub| >= |s| then -1 else IndexFrom(s, sub, i + 1)
  }

  /** `strings.Contains`. */
  predicate Contains(s: string, sub: string) {
    IndexFrom(s, sub, 0) != -1
  }

  /** `strings.Replace(s, from, to, 1)`. */
  function ReplaceFirst(s: string, from: string, to: string): string {
    var i := IndexFrom(s, from, 0);
    if i == -1 then s else s[..i] + to + s[i + |from|..]
  }

  /** `strings.TrimPrefix`. */
  function TrimPrefix(s: string, prefix: string): string {
    if prefix <= s then s[|prefix|..] else s
  }

  /** `NormalizeHeroName`, used by the general parser. */
  function NormalizeHeroName(name: string): string {
    ReplaceFirst(ToLower(name), "cdota_unit_hero_", "npc_dota_hero_")
  }

  /** `NormalizeName`, used by the vision parser and the saver. */
  function NormalizeName(name: string): string {
    ToLower(ReplaceFirst(name, "CDOTA_Unit_Hero_", "npc_dota_hero_"))
  }

  lemma LowerConcat(a: string, b: string)
    ensures ToLower(a + b) == ToLower(a) + ToLower(b)
  {}

  lemma LowerMarker()
    ensures ToLower("CDOTA_Unit_Hero_") == "cdota_unit_hero_"
    ensures ToLower("npc_dota_hero_") == "npc_dota_hero_"
  {}

  lemma ReplaceAtStart(from: string, to: string, rest: string)
    requires from != ""
    ensures ReplaceFirst(from + rest, from, to) == to + rest
  {
    assert OccursAt(from + rest, from, 0);
  }

  /** The two parsers give a hero unit the same name, whatever follows the marker and in whatever case. */
  lemma ParsersAgree(rest: string)
    ensures NormalizeHeroName("CDOTA_Unit_Hero_" + rest) == "npc_dota_hero_" + ToLower(rest)
    ensures NormalizeName("CDOTA_Unit_Hero_" + rest) == "npc_dota_hero_" + ToLower(rest)
  {
    LowerConcat("CDOTA_Unit_Hero_", rest);
    LowerConcat("npc_dota_hero_", rest);
    LowerMarker();
    ReplaceAtStart("cdota_unit_hero_", "npc_dota_hero_", ToLower(rest));
    ReplaceAtStart("CDOTA_Unit_Hero_", "npc_dota_hero_", rest);
  }

  /** Trimming drops the prefix once and leaves any other string alone. */
  lemma TrimExactly(s: string, prefix: string)
    ensures TrimPrefix(prefix + s, prefix) == s
    ensures (forall t :: s != prefix + t) ==> TrimPrefix(s, prefix) == s
  {
    if prefix <= s {
      assert s == prefix + s[|prefix|..];
    }
  }
}
