/** What amplitudes_union.py reads out of its group labels such as
    `2 Nodes ($\chi^2 = 47.82$)`: the chi^2 figure found by the regular expression
    `chi\^2\s*=\s*([\d.]+)` (with `re.search`), and the display name in front of the
    first " ($". */
module LabelParse {
  import opened Decimal

  /** Python's `str.isspace`, which is what `\s` matches in a `str` pattern. */
  predicate IsSpace(c: char)
  {
    ('\U{0009}' <= c <= '\U{000D}') || ('\U{001C}' <= c <= '\U{0020}') ||
    c == '\U{0085}' || c == '\U{00A0}' || c == '\U{1680}' ||
    ('\U{2000}' <= c <= '\U{200A}') || c == '\U{2028}' || c == '\U{2029}' ||
    c == '\U{202F}' || c == '\U{205F}' || c == '\U{3000}'
  }

  /** The literal part `chi\^2` of the pattern. */
  const Chi2Token: string := "chi^2"

  /** Greedy `\s*` from `i`: the first index at or after `i` that is not whitespace. */
  function SkipSpaces(s: string, i: nat): (j: nat)
    requires i <= |s|
    ensures i <= j <= |s|
    decreases |s| - i
  {
    if i == |s| || !IsSpace(s[i]) then i else SkipSpaces(s, i + 1)
  }

  /** `SkipSpaces` passes over whitespace only and stops at a non-space or the end. */
  lemma {:induction false} SkipSpacesSpec(s: string, i: nat)
    requires i <= |s|
    ensures forall k {:trigger IsSpace(s[k])} :: i <= k < SkipSpaces(s, i) ==> IsSpace(s[k])
    ensures SkipSpaces(s, i) == |s| || !IsSpace(s[SkipSpaces(s, i)])
    decreases |s| - i
  {
    if i < |s| && IsSpace(s[i]) {
      SkipSpacesSpec(s, i + 1);
    }
  }

  /** Greedy `[\d.]*` from `i`. */
  function SkipNumber(s: string, i: nat): (j: nat)
    requires i <= |s|
    ensures i <= j <= |s|
    ensures forall k {:trigger IsNumberChar(s[k])} :: i <= k < j ==> IsNumberChar(s[k])
    ensures j == |s| || !IsNumberChar(s[j])
    decreases |s| - i
  {
    if i == |s| || !IsNumberChar(s[i]) then i else SkipNumber(s, i + 1)
  }

  /** The pattern matches `s` from position `p` with `=` at `a` and the group
      `s[b..c]`: `chi^2`, whitespace, `=`, whitespace, then a maximal non-empty run
      of digits and dots (greedy `+` with nothing after it takes the whole run). */
  ghost predicate MatchSpan(s: string, p: nat, a: nat, b: nat, c: nat)
  {
    p + |Chi2Token| <= |s| &&
    s[p..p + |Chi2Token|] == Chi2Token &&
    RestSpan(s, p + |Chi2Token|, a, b, c)
  }

  /** The part of `MatchSpan` after the literal `chi^2`, which ends at `i`. */
  ghost predicate RestSpan(s: string, i: nat, a: nat, b: nat, c: nat)
  {
    i <= a < |s| &&
    (forall k {:trigger IsSpace(s[k])} :: i <= k < a ==> IsSpace(s[k])) &&
    s[a] == '=' &&
    NumberSpan(s, a + 1, b, c)
  }

  /** The part of `RestSpan` after the `=`, which is at `j - 1`. */
  ghost predicate NumberSpan(s: string, j: nat, b: nat, c: nat)
  {
    j <= b < c <= |s| &&
    (forall k {:trigger IsSpace(s[k])} :: j <= k < b ==> IsSpace(s[k])) &&
    (forall k {:trigger IsNumberChar(s[k])} :: b <= k < c ==> IsNumberChar(s[k])) &&
    (c == |s| || !IsNumberChar(s[c]))
  }

  /** `\s*([\d.]+)` tried from position `j`. */
  function MatchNumber(s: string, j: nat): (r: Option<string>)
    requires j <= |s|
    ensures r.Some? ==> r.value != [] && AllNumberChars(r.value)
  {
    var b := SkipSpaces(s, j);
    var c := SkipNumber(s, b);
    if b < c then Some(s[b..c]) else None
  }

  /** The rest of the pattern, `\s*=\s*([\d.]+)`, tried from position `i`. */
  function MatchRest(s: string, i: nat): (r: Option<string>)
    requires i <= |s|
    ensures r.Some? ==> r.value != [] && AllNumberChars(r.value)
  {
    var a := SkipSpaces(s, i);
    if a < |s| && s[a] == '=' then MatchNumber(s, a + 1) else None
  }

  /** The regex engine's attempt at position `p`: the text of group 1, if any. */
  function MatchAt(s: string, p: nat): (r: Option<string>)
    requires p <= |s|
    ensures r.Some? ==> r.value != [] && AllNumberChars(r.value)
  {
    if p + |Chi2Token| <= |s| && s[p..p + |Chi2Token|] == Chi2Token then
      MatchRest(s, p + |Chi2Token|)
    else None
  }

  /** Greedy `\s*` from `i` stops at the first non-space, wherever that is. */
  lemma {:induction false} SkipSpacesStops(s: string, i: nat, j: nat)
    requires i <= j <= |s|
    requires forall k {:trigger IsSpace(s[k])} :: i <= k < j ==> IsSpace(s[k])
    requires j == |s| || !IsSpace(s[j])
    ensures SkipSpaces(s, i) == j
    decreases j - i
  {
    if i < j {
      assert IsSpace(s[i]);
      SkipSpacesStops(s, i + 1, j);
    }
  }

  lemma SkipNumberStops(s: string, i: nat, j: nat)
    requires i <= j <= |s|
    requires forall k {:trigger IsNumberChar(s[k])} :: i <= k < j ==> IsNumberChar(s[k])
    requires j == |s| || !IsNumberChar(s[j])
    ensures SkipNumber(s, i) == j
  {
  }

  /** What each attempt finds is a match of the pattern ... */
  lemma MatchNumberSound(s: string, j: nat)
    requires j <= |s| && MatchNumber(s, j).Some?
    ensures exists b: nat, c: nat :: NumberSpan(s, j, b, c) && MatchNumber(s, j).value == s[b..c]
  {
    var b := SkipSpaces(s, j);
    SkipSpacesSpec(s, j);
    assert NumberSpan(s, j, b, SkipNumber(s, b));
  }

  lemma MatchRestSound(s: string, i: nat)
    requires i <= |s| && MatchRest(s, i).Some?
    ensures exists a: nat, b: nat, c: nat :: RestSpan(s, i, a, b, c) && MatchRest(s, i).value == s[b..c]
  {
    var a := SkipSpaces(s, i);
    SkipSpacesSpec(s, i);
    assert a < |s| && s[a] == '=' && MatchRest(s, i) == MatchNumber(s, a + 1);
    MatchNumberSound(s, a + 1);
    var b: nat, c: nat :| NumberSpan(s, a + 1, b, c) && MatchNumber(s, a + 1).value == s[b..c];
    assert RestSpan(s, i, a, b, c) && MatchRest(s, i).value == s[b..c];
  }

  lemma MatchAtSound(s: string, p: nat)
    requires p <= |s| && MatchAt(s, p).Some?
    ensures exists a: nat, b: nat, c: nat :: MatchSpan(s, p, a, b, c) && MatchAt(s, p).value == s[b..c]
  {
    MatchRestSound(s, p + |Chi2Token|);
    var a: nat, b: nat, c: nat :| RestSpan(s, p + |Chi2Token|, a, b, c) && MatchRest(s, p + |Chi2Token|).value == s[b..c];
    assert MatchSpan(s, p, a, b, c);
  }

  /** ... and every match is the one the attempt finds: the two `\s*` and the
      group can only end where the attempt ends them. */
  lemma MatchNumberComplete(s: string, j: nat, b: nat, c: nat)
    requires NumberSpan(s, j, b, c)
    ensures MatchNumber(s, j) == Some(s[b..c])
  {
    assert IsNumberChar(s[b]);
    SkipSpacesStops(s, j, b);
    SkipNumberStops(s, b, c);
  }

  lemma MatchRestComplete(s: string, i: nat, a: nat, b: nat, c: nat)
    requires RestSpan(s, i, a, b, c)
    ensures MatchRest(s, i) == Some(s[b..c])
  {
    SkipSpacesStops(s, i, a);
    MatchNumberComplete(s, a + 1, b, c);
  }

  lemma MatchAtComplete(s: string, p: nat, a: nat, b: nat, c: nat)
    requires MatchSpan(s, p, a, b, c)
    ensures MatchAt(s, p) == Some(s[b..c])
  {
    MatchRestComplete(s, p + |Chi2Token|, a, b, c);
  }

  /** The leftmost position from `p` on where the pattern matches, or `|s| + 1`
      when it matches nowhere. */
  function FirstMatch(s: string, p: nat): (q: nat)
    requires p <= |s|
    ensures p <= q <= |s| + 1
    ensures forall k :: p <= k < q ==> MatchAt(s, k).None?
    ensures q <= |s| ==> MatchAt(s, q).Some?
    decreases |s| - p
  {
    if MatchAt(s, p).Some? then p
    else if p == |s| then |s| + 1
    else FirstMatch(s, p + 1)
  }

  /** `re.search(...).group(1)`: the group of the match at the leftmost position
      where the pattern matches, if there is one. */
  function Search(s: string): (r: Option<string>)
    ensures r.Some? ==> r.value != [] && AllNumberChars(r.value)
  {
    var q := FirstMatch(s, 0);
    if q <= |s| then MatchAt(s, q) else None
  }

  datatype ParseError = NoChi2(name: string) | NotANumber(text: string)

  datatype Result<T> = Ok(value: T) | Err(error: ParseError)

  /** `float(re.search(...).group(1))` for one label, with the script's
      `ValueError` when there is no match, and `float`'s when the digits-and-dots
      run is not a number ("1.2.3"). */
  function Chi2Of(name: string): (r: Result<real>)
    ensures r.Ok? ==> r.value >= 0.0
  {
    match Search(name)
    case None => Err(NoChi2(name))
    case Some(t) =>
      match DecimalValue(t)
      case None => Err(NotANumber(t))
      case Some(v) => Ok(v)
  }

  /** A label is rejected for lacking chi^2 exactly when the pattern matches
      nowhere in it; otherwise the value read, or the text `float` rejects, is the
      group of the leftmost match of the pattern, the one `re.search` returns. */
  lemma Chi2OfMeaning(name: string)
    ensures Chi2Of(name) == Err(NoChi2(name)) <==>
      forall p: nat, a: nat, b: nat, c: nat :: !MatchSpan(name, p, a, b, c)
    ensures Chi2Of(name).Ok? ==>
      exists p: nat, a: nat, b: nat, c: nat ::
        MatchSpan(name, p, a, b, c) && DecimalValue(name[b..c]) == Some(Chi2Of(name).value) &&
        forall p': nat, a': nat, b': nat, c': nat :: p' < p ==> !MatchSpan(name, p', a', b', c')
    ensures Chi2Of(name).Err? && Chi2Of(name).error.NotANumber? ==>
      exists p: nat, a: nat, b: nat, c: nat ::
        MatchSpan(name, p, a, b, c) && name[b..c] == Chi2Of(name).error.text &&
        DecimalValue(name[b..c]).None? &&
        forall p': nat, a': nat, b': nat, c': nat :: p' < p ==> !MatchSpan(name, p', a', b', c')
  {
    forall p: nat, a: nat, b: nat, c: nat | MatchSpan(name, p, a, b, c)
      ensures MatchAt(name, p).Some?
    {
      MatchAtComplete(name, p, a, b, c);
    }
    var q := FirstMatch(name, 0);
    if q <= |name| {
      MatchAtSound(name, q);
      var a: nat, b: nat, c: nat :| MatchSpan(name, q, a, b, c) && MatchAt(name, q).value == name[b..c];
      assert forall p': nat, a': nat, b': nat, c': nat :: p' < q ==> !MatchSpan(name, p', a', b', c');
    }
  }

  /** What a loop storing `parse(name)` for each name ends with: the dict of every
      name's value, or the error of the first name whose parse fails. */
  function Collect(names: seq<string>, parse: string -> Result<real>): Result<map<string, real>>
  {
    if names == [] then Ok(map[])
    else
      match Collect(names[..|names| - 1], parse)
      case Err(e) => Err(e)
      case Ok(m) =>
        match parse(names[|names| - 1])
        case Err(e) => Err(e)
        case Ok(v) => Ok(m[names[|names| - 1] := v])
  }

  /** Once a name fails, the loop has stopped: later names change nothing. */
  lemma {:induction false} CollectErrorSticks(names: seq<string>, parse: string -> Result<real>, k: nat)
    requires k <= |names| && Collect(names[..k], parse).Err?
    ensures Collect(names, parse) == Collect(names[..k], parse)
    decreases |names| - k
  {
    if k < |names| {
      assert names[..k + 1][..k] == names[..k];
      CollectErrorSticks(names, parse, k + 1);
    } else {
      assert names[..k] == names;
    }
  }

  /** The loop succeeds exactly when every name parses; then the dict maps each
      name (and nothing else) to its value; otherwise the error is that of the first
      name that does not parse, and no partial dict is returned. */
  lemma {:induction false} CollectMeaning(names: seq<string>, parse: string -> Result<real>)
    ensures Collect(names, parse).Ok? <==> forall k :: 0 <= k < |names| ==> parse(names[k]).Ok?
    ensures Collect(names, parse).Ok? ==>
      forall key :: key in Collect(names, parse).value ==> key in names
    ensures Collect(names, parse).Ok? ==> forall k :: 0 <= k < |names| ==>
      names[k] in Collect(names, parse).value && parse(names[k]) == Ok(Collect(names, parse).value[names[k]])
    ensures Collect(names, parse).Err? ==>
      exists k :: 0 <= k < |names| && parse(names[k]) == Err(Collect(names, parse).error) &&
                  forall j :: 0 <= j < k ==> parse(names[j]).Ok?
  {
    if names != [] {
      var n := |names|;
      var init := names[..n - 1];
      CollectMeaning(init, parse);
      assert forall k :: 0 <= k < n - 1 ==> init[k] == names[k];
      match Collect(init, parse)
      case Err(e) =>
        var k :| 0 <= k < |init| && parse(init[k]) == Err(e) && forall j :: 0 <= j < k ==> parse(init[j]).Ok?;
        assert parse(names[k]) == Err(e);
      case Ok(m) =>
        match parse(names[n - 1])
        case Err(e) =>
        case Ok(v) =>
          assert Collect(names, parse) == Ok(m[names[n - 1] := v]);
    }
  }

  /** The loop over `node_names` filling `chi2_values`, raising on the first label
      without a readable chi^2. */
  method ExtractChi2(names: seq<string>) returns (r: Result<map<string, real>>)
    ensures r == Collect(names, Chi2Of)
  {
    var chi2Values: map<string, real> := map[];
    for k := 0 to |names|
      invariant Collect(names[..k], Chi2Of) == Ok(chi2Values)
    {
      assert names[..k + 1][..k] == names[..k];
      var name := names[k];
      match Chi2Of(name) {
        case Err(e) =>
          CollectErrorSticks(names, Chi2Of, k + 1);
          return Err(e);
        case Ok(v) =>
          chi2Values := chi2Values[name := v];
      }
    }
    assert names[..|names|] == names;
    return Ok(chi2Values);
  }

  /** `s` contains `sep` starting at index `k`. */
  predicate OccursAt(s: string, sep: string, k: nat)
  {
    k + |sep| <= |s| && s[k..k + |sep|] == sep
  }

  const NameSeparator: string := " ($"

  /** `name.split(' ($')[0]`: everything before the first " ($", or the whole label
      when it has none. */
  function DisplayName(name: string): (d: string)
    ensures d <= name
    ensures forall k :: 0 <= k < |d| ==> !OccursAt(name, NameSeparator, k)
    ensures |d| < |name| ==> OccursAt(name, NameSeparator, |d|)
  {
    if name == [] then []
    else if OccursAt(name, NameSeparator, 0) then []
    else
      var rest := DisplayName(name[1..]);
      assert forall k :: 1 <= k <= |name| ==> OccursAt(name, NameSeparator, k) == OccursAt(name[1..], NameSeparator, k - 1);
      [name[0]] + rest
  }

  /** The display name is exactly the text before the first " ($". */
  lemma DisplayNameStops(name: string, k: nat)
    requires OccursAt(name, NameSeparator, k)
    requires forall j :: 0 <= j < k ==> !OccursAt(name, NameSeparator, j)
    ensures DisplayName(name) == name[..k]
  {
    var d := DisplayName(name);
    assert |d| == k;
  }
}
