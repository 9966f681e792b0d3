/** Taking a known prefix or suffix off a header value, used to read values of a fixed shape back. */
module Affixes {
  import opened Wrappers

  /** `s` without the trailing `suffix`, when it ends with it. */
  function StripSuffix(s: string, suffix: string): (r: Option<string>)
    ensures r.Some? ==> r.value + suffix == s
  {
    if |s| >= |suffix| && s[|s| - |suffix|..] == suffix then Some(s[..|s| - |suffix|]) else None
  }

  /** `s` without the leading `prefix`, when it starts with it. */
  function StripPrefix(s: string, prefix: string): (r: Option<string>)
    ensures r.Some? ==> prefix + r.value == s
  {
    if |s| >= |prefix| && s[..|prefix|] == prefix then Some(s[|prefix|..]) else None
  }

  /** Removing an affix just added gives back the string. */
  lemma StripAffixes(x: string, affix: string)
    ensures StripSuffix(x + affix, affix) == Some(x)
    ensures StripPrefix(affix + x, affix) == Some(x)
  {
    assert (x + affix)[|x|..] == affix && (x + affix)[..|x|] == x;
    assert (affix + x)[..|affix|] == affix && (affix + x)[|affix|..] == x;
  }
}
