/** The name a runner container carries while its replacement is created, and how it is read back. */
module RunnerNames {
  import opened Common

  const PREVIOUS_SUFFIX := "-previous-"

  predicate IsHexDigit(c: char) {
    '0' <= c <= '9' || 'a' <= c <= 'f'
  }

  predicate IsHex(s: string) {
    s != [] && forall i :: 0 <= i < |s| ==> IsHexDigit(s[i])
  }

  function PreviousName(name: string, shortId: string): string {
    name + PREVIOUS_SUFFIX + shortId
  }

  /** The suffix starts at `i`, after a runner name of at least one character, and only hex digits follow it. */
  predicate SuffixAt(name: string, i: nat) {
    1 <= i && i + |PREVIOUS_SUFFIX| < |name| &&
    name[i..i + |PREVIOUS_SUFFIX|] == PREVIOUS_SUFFIX && IsHex(name[i + |PREVIOUS_SUFFIX|..])
  }

  /** The greedy match: the last place at or before `i` where the suffix fits. */
  function LastSuffix(name: string, i: nat): (r: Option<nat>)
    ensures r.Some? ==> r.value <= i && SuffixAt(name, r.value)
    ensures r.None? ==> forall k: nat :: k <= i ==> !SuffixAt(name, k)
  {
    if SuffixAt(name, i) then Some(i) else if i == 0 then None else LastSuffix(name, i - 1)
  }

  /** The runner's own name inside a `-previous-` name. */
  function RunnerName(name: string): Option<string> {
    match LastSuffix(name, |name|)
    case None => None
    case Some(i) => Some(name[..i])
  }

  predicate IsPreviousName(name: string) {
    RunnerName(name).Some?
  }

  /** Past the start of a suffix that only hex digits follow, no other `-p` can start. */
  lemma NoLaterDash(name: string, i: nat, j: nat)
    requires SuffixAt(name, i) && i < j < |name| - 1
    ensures name[j] != '-' || name[j + 1] != 'p'
  {
    var n := |PREVIOUS_SUFFIX|;
    if j < i + n - 1 {
      assert name[i..i + n][j - i] == PREVIOUS_SUFFIX[j - i];
    } else {
      assert name[i + n..][j + 1 - i - n] == name[j + 1];
    }
  }

  lemma SuffixStarts(name: string, i: nat)
    requires SuffixAt(name, i)
    ensures name[i] == '-' && name[i + 1] == 'p'
  {
    var n := |PREVIOUS_SUFFIX|;
    assert name[i..i + n][0] == PREVIOUS_SUFFIX[0] && name[i..i + n][1] == PREVIOUS_SUFFIX[1];
  }

  /** The suffix fits a name in at most one place. */
  lemma SuffixIsUnique(name: string, i: nat, j: nat)
    requires SuffixAt(name, i) && SuffixAt(name, j)
    ensures i == j
  {
    SuffixStarts(name, i);
    SuffixStarts(name, j);
    if i < j {
      NoLaterDash(name, i, j);
    } else if j < i {
      NoLaterDash(name, j, i);
    }
  }

  /** A runner's name survives being renamed aside and read back, whatever characters it holds. */
  lemma PreviousNameRoundTrip(name: string, shortId: string)
    requires name != [] && IsHex(shortId)
    ensures RunnerName(PreviousName(name, shortId)) == Some(name)
  {
    var aside := PreviousName(name, shortId);
    assert aside[|name| + |PREVIOUS_SUFFIX|..] == shortId;
    assert aside[|name|..|name| + |PREVIOUS_SUFFIX|] == PREVIOUS_SUFFIX;
    assert SuffixAt(aside, |name|);
    var found := LastSuffix(aside, |aside|);
    SuffixIsUnique(aside, |name|, found.value);
    assert aside[..|name|] == name;
  }

  /** Exactly the names of that form are taken for leftovers. */
  lemma IsPreviousNameIff(name: string)
    ensures IsPreviousName(name) <==>
      exists runner, shortId :: runner != [] && IsHex(shortId) && name == PreviousName(runner, shortId)
  {
    if IsPreviousName(name) {
      var i := LastSuffix(name, |name|).value;
      assert name == PreviousName(name[..i], name[i + |PREVIOUS_SUFFIX|..]);
    } else if runner, shortId :| runner != [] && IsHex(shortId) && name == PreviousName(runner, shortId) {
      PreviousNameRoundTrip(runner, shortId);
    }
  }
}
