/** Column names as Django lookup paths: a relation and a field of the related model joined by
    "__" (`individual__first_name`), and Python's `name.split('__', 1)` on them. */
module LookupPath {
  import opened Outcomes

  /** Django's lookup separator. */
  const Sep: string := "__"

  /** The prefix that turns a person column into a path through the beneficiary's individual. */
  const PersonPrefix: string := "individual__"

  /** The separator starts at index `i` of `s`. */
  predicate SepAt(s: string, i: int)
  {
    0 <= i && i + 1 < |s| && s[i] == '_' && s[i + 1] == '_'
  }

  /** The first index at or after `from` where the separator starts, as `str.find` scans. */
  function FindSepFrom(s: string, from: nat): (r: Option<nat>)
    requires from <= |s|
    ensures r.Some? ==> from <= r.value && SepAt(s, r.value)
    ensures r.Some? ==> forall j :: from <= j < r.value ==> !SepAt(s, j)
    ensures r.None? ==> forall j :: from <= j < |s| ==> !SepAt(s, j)
    decreases |s| - from
  {
    if from + 1 >= |s| then None
    else if SepAt(s, from) then Some(from)
    else FindSepFrom(s, from + 1)
  }

  /** Python's `s.split('__', 1)`: the whole string when it holds no separator, otherwise the
      part before the first separator and everything after it. */
  function SplitOnce(s: string): (parts: seq<string>)
    ensures |parts| == 1 || |parts| == 2
    ensures |parts| == 1 ==> parts[0] == s
    ensures |parts| == 2 ==> |parts[0]| + 2 <= |s| && SepAt(s, |parts[0]|)
    ensures |parts| == 2 ==> parts[0] == s[..|parts[0]|] && parts[1] == s[|parts[0]| + 2..]
  {
    match FindSepFrom(s, 0)
    case None => [s]
    case Some(i) => [s[..i], s[i + 2..]]
  }

  /** The split falls at the first separator, and joining the parts with the separator gives
      back the string. */
  lemma SplitOnceMeaning(s: string)
    ensures |SplitOnce(s)| == 1 <==> forall j :: 0 <= j < |s| ==> !SepAt(s, j)
    ensures |SplitOnce(s)| == 1 ==> SplitOnce(s)[0] == s
    ensures |SplitOnce(s)| == 2 ==> SplitOnce(s)[0] + Sep + SplitOnce(s)[1] == s
    ensures |SplitOnce(s)| == 2 ==> SepAt(s, |SplitOnce(s)[0]|) && forall j :: 0 <= j < |SplitOnce(s)[0]| ==> !SepAt(s, j)
  {
    match FindSepFrom(s, 0)
    case None =>
    case Some(i) =>
      assert s == s[..i] + Sep + s[i + 2..];
  }

  /** `c` with the person prefix put in front of it `n` times. */
  function Prefixed(n: nat, c: string): (r: string)
    ensures |r| == 12 * n + |c|
  {
    if n == 0 then c else PersonPrefix + Prefixed(n - 1, c)
  }

  /** Splitting a prefixed name gives back the relation name and the name that was prefixed,
      whatever that name holds. */
  lemma SplitPersonPrefix(c: string)
    ensures SplitOnce(PersonPrefix + c) == ["individual", c]
  {
    var s := PersonPrefix + c;
    assert s[..12] == PersonPrefix;
    assert SepAt(s, 10);
    var found := FindSepFrom(s, 0);
    assert found.Some?;
    assert found.value == 10;
    assert s[..10] == "individual";
    assert s[12..] == c;
  }
}
