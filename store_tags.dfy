/**
 * The `slugify` template filter: lower-case the text, then turn every space
 * and every underscore into a hyphen.
 */
module StoreTags {

  predicate IsAscii(s: string)
  {
    forall i :: 0 <= i < |s| ==> s[i] < 128 as char
  }

  /** ASCII lower-casing: 'A'..'Z' become 'a'..'z', every other character stays. */
  function LowerChar(ch: char): (r: char)
    ensures 'A' <= ch <= 'Z' ==> 'a' <= r <= 'z' && r as int - ch as int == 32
    ensures !('A' <= ch <= 'Z') ==> r == ch
  {
    if 'A' <= ch <= 'Z' then (ch as int + 32) as char else ch
  }

  /** `str.lower()` on the characters this model covers. */
  function Lower(s: string): (r: string)
    ensures |r| == |s|
    ensures forall i :: 0 <= i < |s| ==> r[i] == LowerChar(s[i])
  {
    if s == [] then [] else [LowerChar(s[0])] + Lower(s[1..])
  }

  /** `str.replace(from, to)` with one-character `from` and `to`. */
  function ReplaceChar(s: string, from: char, to: char): (r: string)
    ensures |r| == |s|
    ensures forall i :: 0 <= i < |s| ==> r[i] == if s[i] == from then to else s[i]
  {
    if s == [] then [] else [if s[0] == from then to else s[0]] + ReplaceChar(s[1..], from, to)
  }

  /** The filter as the chain `value.lower().replace(' ', '-').replace('_', '-')`. */
  function Slugify(value: string): (r: string)
    ensures ' ' !in r && '_' !in r
  {
    var r := ReplaceChar(ReplaceChar(Lower(value), ' ', '-'), '_', '-');
    assert forall i :: 0 <= i < |r| ==> r[i] != ' ' && r[i] != '_';
    r
  }

  /** The character the filter puts at a position of an ASCII input. */
  function SlugChar(ch: char): char
  {
    if ch == ' ' || ch == '_' then '-' else LowerChar(ch)
  }

  /**
   * On ASCII input the filter keeps the length and maps each character on its
   * own: capitals to small letters, space and underscore to '-', the rest
   * unchanged.
   */
  lemma SlugifyAt(value: string)
    requires IsAscii(value)
    ensures |Slugify(value)| == |value|
    ensures forall i :: 0 <= i < |value| ==> Slugify(value)[i] == SlugChar(value[i])
    ensures IsAscii(Slugify(value))
  {
  }

  /** A slug is its own slug. */
  lemma SlugifyIdempotent(value: string)
    requires IsAscii(value)
    ensures Slugify(Slugify(value)) == Slugify(value)
  {
  }
}
