/**
 * getFolderName (renderer.js:861-894): choose a base name (AI title, then a
 * fallback name, then the local-time stamp), make it a legal folder name,
 * then probe `base`, `base 2`, `base 3`, ... under the root folder until a
 * name is free. The root folder's entries are a finite set of names; the AI
 * title service is an optional result (None when the call throws).
 */
module FolderNaming {
  import opened Strings
  import opened Timestamps
  import Settings

  const MaxNameLength: nat := 100

  /** The characters of the class `[<>:"/\\|?*]`. */
  predicate IsIllegal(c: char)
  {
    c == '<' || c == '>' || c == ':' || c == '"' || c == '/' || c == '\\' || c == '|' || c == '?' || c == '*'
  }

  predicate IsLegalName(s: string)
  {
    forall i :: 0 <= i < |s| ==> !IsIllegal(s[i])
  }

  /** `s.replace(/[<>:"/\\|?*]/g, '_')`. */
  function ReplaceIllegal(s: string): (r: string)
    ensures |r| == |s| && forall i :: 0 <= i < |s| ==> r[i] == if IsIllegal(s[i]) then '_' else s[i]
  {
    seq(|s|, i requires 0 <= i < |s| => if IsIllegal(s[i]) then '_' else s[i])
  }

  /**
   * The sanitising step `.replace(...).substring(0, 100)`: every illegal
   * character becomes '_', every other character stays where it was, and the
   * name is cut to 100 characters.
   */
  function Sanitize(s: string): (r: string)
    ensures |r| == if |s| < MaxNameLength then |s| else MaxNameLength
    ensures IsLegalName(r)
    ensures forall i :: 0 <= i < |r| ==> !IsIllegal(s[i]) ==> r[i] == s[i]
  {
    var replaced := ReplaceIllegal(s);
    if |replaced| < MaxNameLength then replaced else replaced[..MaxNameLength]
  }

  /** Sanitising a sanitised name changes nothing. */
  lemma SanitizeIdempotent(s: string)
    ensures Sanitize(Sanitize(s)) == Sanitize(s)
  {
    var r := Sanitize(s);
    assert forall i :: 0 <= i < |r| ==> ReplaceIllegal(r)[i] == r[i];
    assert ReplaceIllegal(r) == r;
  }

  /** A name that is already legal and short enough is kept as it is. */
  lemma SanitizeKeepsLegalNames(s: string)
    requires IsLegalName(s) && |s| <= MaxNameLength
    ensures Sanitize(s) == s
  {
    assert ReplaceIllegal(s) == s;
  }

  function Pow10(k: nat): nat
  {
    if k == 0 then 1 else 10 * Pow10(k - 1)
  }

  lemma {:induction false} NatToStringLength(n: nat, k: nat)
    requires k >= 1 && n < Pow10(k)
    ensures |NatToString(n)| <= k
  {
    if n >= 10 {
      assert k >= 2;
      assert n / 10 < Pow10(k - 1);
      NatToStringLength(n / 10, k - 1);
      assert NatToString(n) == NatToString(n / 10) + [DigitChar(n % 10)];
    }
  }

  /** The local-time stamp is a legal folder name of at most 21 characters. */
  lemma FolderTimestampIsLegal(t: LocalTime)
    requires t.Valid()
    ensures IsLegalName(FolderTimestamp(t)) && |FolderTimestamp(t)| <= 21
  {
    NatToStringLength(t.year, 6);
  }

  /** The AI title service is asked only with an image, AI enabled and a key set. */
  predicate AiTitleRequested(hasImage: bool, settings: Settings.AppSettings)
  {
    hasImage && settings.useOpenAI && settings.openAIKey != ""
  }

  /**
   * The base name of getFolderName (renderer.js:862-883). `title` is the
   * service's answer when it is asked (None when the call throws); `fallback`
   * is None for a null argument.
   */
  function ChooseBaseName(requested: bool, title: Option<string>, fallback: Option<string>,
                          now: LocalTime): (base: string)
    requires now.Valid()
    ensures base != "" && |base| <= MaxNameLength && IsLegalName(base)
    ensures requested && title.Some? && title.value != "" ==> base == Sanitize(title.value)
    ensures (!(requested && title.Some? && title.value != "") && fallback.Some? && fallback.value != "")
              ==> base == Sanitize(fallback.value)
    ensures (!(requested && title.Some? && title.value != "") && !(fallback.Some? && fallback.value != ""))
              ==> base == FolderTimestamp(now)
  {
    var fromTitle := if requested && title.Some? then Sanitize(title.value) else "";
    if fromTitle != "" then fromTitle
    else if fallback.Some? && fallback.value != "" then Sanitize(fallback.value)
    else
      FolderTimestampIsLegal(now);
      FolderTimestamp(now)
  }

  /** The k-th name probed for a base: `base` itself, then `base 2`, `base 3`, ... */
  function Candidate(base: string, k: nat): (name: string)
    requires k >= 1
  {
    if k == 1 then base else base + " " + NatToString(k)
  }

  /** The probe sequence never repeats a name. */
  lemma CandidateInjective(base: string, i: nat, j: nat)
    requires i >= 1 && j >= 1 && Candidate(base, i) == Candidate(base, j)
    ensures i == j
  {
    if i >= 2 && j >= 2 {
      var u := Candidate(base, i);
      assert NatToString(i) == u[|base| + 1..] == NatToString(j);
      NatToStringInjective(i, j);
    }
  }

  /** The names probed before the n-th. */
  ghost function Probed(base: string, n: nat): set<string>
  {
    set j | 1 <= j < n :: Candidate(base, j)
  }

  lemma ProbedStep(base: string, n: nat)
    requires n >= 1
    ensures Probed(base, n + 1) == Probed(base, n) + {Candidate(base, n)}
    ensures Candidate(base, n) !in Probed(base, n)
  {
    if Candidate(base, n) in Probed(base, n) {
      var j :| 1 <= j < n && Candidate(base, j) == Candidate(base, n);
      CandidateInjective(base, j, n);
    }
  }

  /**
   * `name` is what the probe loop settles on for `base`: a name of the probe
   * sequence that does not exist, all earlier names of which do.
   */
  ghost predicate FirstFree(existing: set<string>, base: string, name: string)
  {
    exists k :: k >= 1 && name == Candidate(base, k) && name !in existing
                && forall j :: 1 <= j < k ==> Candidate(base, j) in existing
  }

  /** At most one name is the first free one: the resolver has no choice to make. */
  lemma FirstFreeUnique(existing: set<string>, base: string, a: string, b: string)
    requires FirstFree(existing, base, a) && FirstFree(existing, base, b)
    ensures a == b
  {
    var ka :| ka >= 1 && a == Candidate(base, ka) && a !in existing
              && forall j :: 1 <= j < ka ==> Candidate(base, j) in existing;
    var kb :| kb >= 1 && b == Candidate(base, kb) && b !in existing
              && forall j :: 1 <= j < kb ==> Candidate(base, j) in existing;
  }

  /**
   * The collision loop of getFolderName (renderer.js:886-893). It ends for
   * every finite set of existing names and returns the first free name of
   * the probe sequence: `base` when it is free, otherwise `base k` for the
   * smallest k >= 2 that is free.
   */
  method ResolveFolderName(existing: set<string>, base: string) returns (folderName: string, ghost suffix: nat)
    ensures suffix >= 1 && folderName == Candidate(base, suffix)
    ensures folderName !in existing
    ensures forall j :: 1 <= j < suffix ==> Candidate(base, j) in existing
    ensures FirstFree(existing, base, folderName)
  {
    folderName := base;
    var index := 2;
    ghost var unprobed := existing;
    while folderName in existing
      invariant index >= 2
      invariant folderName == Candidate(base, index - 1)
      invariant unprobed == existing - Probed(base, index - 1)
      invariant forall j :: 1 <= j < index - 1 ==> Candidate(base, j) in existing
      decreases unprobed
    {
      ProbedStep(base, index - 1);
      unprobed := unprobed - {folderName};
      folderName := base + " " + NatToString(index);
      index := index + 1;
    }
    suffix := index - 1;
  }

  /**
   * getFolderName as a whole: the base name of ChooseBaseName, made unique
   * against the names that exist under the root folder.
   */
  method GetFolderName(existing: set<string>, settings: Settings.AppSettings, hasImage: bool,
                       title: Option<string>, fallback: Option<string>, now: LocalTime)
    returns (folderName: string, ghost suffix: nat)
    requires now.Valid()
    ensures folderName !in existing
    ensures suffix >= 1
    ensures folderName == Candidate(ChooseBaseName(AiTitleRequested(hasImage, settings), title, fallback, now), suffix)
    ensures forall j :: 1 <= j < suffix ==>
              Candidate(ChooseBaseName(AiTitleRequested(hasImage, settings), title, fallback, now), j) in existing
    ensures FirstFree(existing, ChooseBaseName(AiTitleRequested(hasImage, settings), title, fallback, now), folderName)
  {
    var base := ChooseBaseName(AiTitleRequested(hasImage, settings), title, fallback, now);
    folderName, suffix := ResolveFolderName(existing, base);
  }

  /**
   * Repeated drops under one base name: when no name of the probe sequence
   * exists yet, n drops in a row create `base`, `base 2`, ..., `base n`,
   * each seeing the folders created before it.
   */
  method ResolveRepeatedDrops(existing: set<string>, base: string, n: nat) returns (names: seq<string>)
    requires forall k :: k >= 1 ==> Candidate(base, k) !in existing
    ensures |names| == n
    ensures forall i :: 0 <= i < n ==> names[i] == Candidate(base, i + 1)
  {
    var current := existing;
    names := [];
    for i := 0 to n
      invariant |names| == i
      invariant forall m :: 0 <= m < i ==> names[m] == Candidate(base, m + 1)
      invariant current == existing + Probed(base, i + 1)
    {
      var name;
      ghost var k;
      name, k := ResolveFolderName(current, base);
      ProbedStep(base, i + 1);
      names := names + [name];
      current := current + {name};
    }
  }
}
