/** `extract_search_intent`: decides from the last turn of the conversation
    whether a product search was announced, and with which query and budget.
    The three trigger expressions of app.py lines 193-195 and the budget
    expression of line 204 are written out as matchers that follow the order
    in which Python's `re.search` tries and backtracks. */
module Intent {
  import opened Values
  import opened Text

  datatype Role = User | Assistant

  /** A conversation turn; a turn without a "content" key reads as "". */
  datatype Turn = Turn(role: Role, content: Option<string>)

  datatype SearchIntent = SearchIntent(query: string, minPrice: nat, maxPrice: nat)

  const DefaultMinPrice: nat := 0
  const DefaultMaxPrice: nat := 1000

  /** A trigger: its literal stem, and whether an optional 's' may follow it
      (`cherchons?` is the stem "cherchon" with an optional 's'). */
  datatype Trigger = Trigger(stem: string, optionalS: bool)

  /** The expressions of lines 193-195, in the order they are tried. */
  const Triggers: seq<Trigger> :=
    [Trigger("cherchon", true), Trigger("recherche", false), Trigger("regardon", true)]

  /** The bounds `[lo, hi)` of the group `(.+?)`. */
  datatype Group = Group(lo: nat, hi: nat)

  /** A match of a trigger expression that starts at `at`. */
  datatype Hit = Hit(at: nat, group: Group)

  datatype Budget = Budget(low: nat, high: nat)

  // ---------------------------------------------------------------------------
  // Where the query ends: `(?:\s+entre|\s+dans|\s+à|\s+pour|\.|$)`

  /** One of the words `\s+` must reach for the query to end. */
  predicate StopWordAt(s: string, i: nat) {
    StartsAt(s, i, "entre") || StartsAt(s, i, "dans") || StartsAt(s, i, "à") || StartsAt(s, i, "pour")
  }

  /** The alternation matches at `e`. A stop word begins with a letter, so the
      greedy `\s+` can only reach one by taking the whole white-space run at
      `e` (StopAfterSpaces); `$` matches at the end and before a final "\n". */
  predicate QueryEndsAt(s: string, e: nat)
    requires e <= |s|
  {
    var w := Span(s, e, Whitespace);
    (w > 0 && StopWordAt(s, e + w))
    || (e < |s| && s[e] == '.')
    || e == |s|
    || (e == |s| - 1 && s[e] == '\n')
  }

  /** Any run of white space that reaches a stop word is the whole run. */
  lemma StopAfterSpaces(s: string, e: nat, k: nat)
    requires e + k <= |s| && k > 0
    requires forall i :: e <= i < e + k ==> IsSpace(s[i])
    requires StopWordAt(s, e + k)
    ensures Span(s, e, Whitespace) == k
    ensures QueryEndsAt(s, e)
  {
    assert s[e + k] == (if StartsAt(s, e + k, "entre") then "entre"[0]
                        else if StartsAt(s, e + k, "dans") then "dans"[0]
                        else if StartsAt(s, e + k, "à") then "à"[0] else "pour"[0]);
    SpanIs(s, e, Whitespace, k);
  }

  /** `s[lo..hi)` is what `(.+?)` captures when it starts at `lo`: at least one
      character, no newline, the alternation matches right after it and at no
      earlier point. */
  predicate IsLazyGroup(s: string, lo: nat, hi: nat) {
    lo < hi <= |s|
    && (forall k :: lo <= k < hi ==> s[k] != '\n')
    && QueryEndsAt(s, hi)
    && (forall k :: lo < k < hi ==> !QueryEndsAt(s, k))
  }

  /** The lazy `(.+?)`, having consumed up to `e`: it takes one more character
      at a time, never a newline, until the alternation matches. */
  function LazyGroupEnd(s: string, e: nat): (r: Option<nat>)
    requires 0 < e <= |s|
    ensures r.Some? ==> e <= r.value <= |s|
    decreases |s| - e
  {
    if s[e - 1] == '\n' then None
    else if QueryEndsAt(s, e) then Some(e)
    else if e < |s| then LazyGroupEnd(s, e + 1)
    else None
  }

  /** The lazy group ends at the first point where the alternation matches,
      and fails only on a newline. */
  lemma {:induction false} LazyGroupEndShape(s: string, e: nat)
    requires 0 < e <= |s|
    ensures LazyGroupEnd(s, e).Some? ==>
              var hi := LazyGroupEnd(s, e).value;
              QueryEndsAt(s, hi)
              && (forall k :: e - 1 <= k < hi ==> s[k] != '\n')
              && (forall k :: e <= k < hi ==> !QueryEndsAt(s, k))
    ensures LazyGroupEnd(s, e).None? ==> exists n :: e - 1 <= n < |s| && s[n] == '\n'
    decreases |s| - e
  {
    if s[e - 1] != '\n' && !QueryEndsAt(s, e) && e < |s| {
      LazyGroupEndShape(s, e + 1);
    }
  }

  /** The converse: a stretch without newline up to the first point where the
      alternation matches is what the lazy group takes. */
  lemma {:induction false} LazyGroupEndIs(s: string, e: nat, hi: nat)
    requires 0 < e <= hi <= |s|
    requires forall k :: e - 1 <= k < hi ==> s[k] != '\n'
    requires forall k :: e <= k < hi ==> !QueryEndsAt(s, k)
    requires QueryEndsAt(s, hi)
    ensures LazyGroupEnd(s, e) == Some(hi)
    decreases hi - e
  {
    if e < hi {
      LazyGroupEndIs(s, e + 1, hi);
    }
  }

  /** `\s+(.+?)...` with `\s+` holding `k` of the white-space characters at
      `j`: the group starts at `j + k`; when it fails, `\s+` gives one
      character back, down to one. */
  function GroupAfterSpaces(s: string, j: nat, k: nat): (r: Option<Group>)
    requires j + k <= |s|
    ensures r.Some? ==> j < r.value.lo <= j + k && r.value.lo < r.value.hi <= |s|
    decreases k
  {
    if k == 0 then None
    else if j + k < |s| && LazyGroupEnd(s, j + k + 1).Some? then
      Some(Group(j + k, LazyGroupEnd(s, j + k + 1).value))
    else GroupAfterSpaces(s, j, k - 1)
  }

  /** Whichever start `\s+` settles on, the group is a lazy group. */
  lemma {:induction false} GroupAfterSpacesShape(s: string, j: nat, k: nat)
    requires j + k <= |s| && GroupAfterSpaces(s, j, k).Some?
    ensures IsLazyGroup(s, GroupAfterSpaces(s, j, k).value.lo, GroupAfterSpaces(s, j, k).value.hi)
    decreases k
  {
    if j + k < |s| && LazyGroupEnd(s, j + k + 1).Some? {
      LazyGroupEndShape(s, j + k + 1);
    } else {
      GroupAfterSpacesShape(s, j, k - 1);
    }
  }

  /** Between the stem at `p` and the group start `lo` there is the optional
      's' and then only white space, at least one character of it. */
  predicate TriggerBefore(s: string, p: nat, t: Trigger, lo: nat) {
    var j := p + |t.stem|;
    StartsAt(s, p, t.stem) && lo <= |s|
    && ((j < lo && AllSpace(s[j..lo]))
        || (t.optionalS && j + 1 < lo && s[j] == 's' && AllSpace(s[j + 1..lo])))
  }

  /** Where `\s+` starts once the stem at `p` is matched: after the optional
      's' when the expression matches with it (greedy `s?` is tried first),
      right after the stem otherwise. */
  function SpacesStart(s: string, p: nat, t: Trigger): (j: nat)
    requires StartsAt(s, p, t.stem)
    ensures j == p + |t.stem| || (t.optionalS && j == p + |t.stem| + 1 && j <= |s| && s[p + |t.stem|] == 's')
    ensures j <= |s|
  {
    var j := p + |t.stem|;
    if t.optionalS && j < |s| && s[j] == 's' && GroupAfterSpaces(s, j + 1, Span(s, j + 1, Whitespace)).Some?
    then j + 1 else j
  }

  /** The trigger expression tried at position `p` (a `re.match` there). */
  function MatchAt(s: string, p: nat, t: Trigger): (r: Option<Group>)
    requires p <= |s|
    ensures !StartsAt(s, p, t.stem) ==> r.None?
    ensures r.Some? ==> p + |t.stem| < r.value.lo < r.value.hi <= |s|
  {
    if !StartsAt(s, p, t.stem) then None
    else
      var j := SpacesStart(s, p, t);
      GroupAfterSpaces(s, j, Span(s, j, Whitespace))
  }

  /** A group found after the white-space run at `j` starts after white space only. */
  lemma SpacesBeforeGroup(s: string, j: nat, g: Group)
    requires j <= |s| && GroupAfterSpaces(s, j, Span(s, j, Whitespace)) == Some(g)
    ensures j < g.lo && AllSpace(s[j..g.lo]) && IsLazyGroup(s, g.lo, g.hi)
  {
    GroupAfterSpacesShape(s, j, Span(s, j, Whitespace));
    SpanShape(s, j, Whitespace);
    forall k | j <= k < g.lo ensures IsSpace(s[k]) {
      assert InClass(s[k], Whitespace);
    }
  }

  /** `\s+` is greedy: no later start than `lo`, with only white space (and
      the optional 's') between it and the stem at `p`, begins a lazy group. */
  ghost predicate LatestStart(s: string, p: nat, t: Trigger, lo: nat) {
    forall m, hi :: lo < m && TriggerBefore(s, p, t, m) ==> !IsLazyGroup(s, m, hi)
  }

  /** What a match at `p` consists of: the stem, the optional 's', white
      space, and a lazy group, starting as late as the white space allows. */
  lemma MatchAtShape(s: string, p: nat, t: Trigger)
    requires p <= |s| && MatchAt(s, p, t).Some?
    ensures TriggerBefore(s, p, t, MatchAt(s, p, t).value.lo)
    ensures IsLazyGroup(s, MatchAt(s, p, t).value.lo, MatchAt(s, p, t).value.hi)
    ensures LatestStart(s, p, t, MatchAt(s, p, t).value.lo)
  {
    var j := SpacesStart(s, p, t);
    var g := MatchAt(s, p, t).value;
    SpacesBeforeGroup(s, j, g);
    GroupAfterSpacesLatest(s, j, Span(s, j, Whitespace));
    forall m, hi | g.lo < m && TriggerBefore(s, p, t, m) ensures !IsLazyGroup(s, m, hi) {
      StartWithinSpaces(s, p, t, m);
    }
  }

  /** Any start that the stem, the optional 's' and white space reach lies
      within the white space `\s+` takes at first, when the expression matches. */
  lemma StartWithinSpaces(s: string, p: nat, t: Trigger, m: nat)
    requires TriggerBefore(s, p, t, m)
    requires GroupAfterSpaces(s, SpacesStart(s, p, t), Span(s, SpacesStart(s, p, t), Whitespace)).Some?
    ensures m <= SpacesStart(s, p, t) + Span(s, SpacesStart(s, p, t), Whitespace)
  {
    var j0 := p + |t.stem|;
    if j0 < m && AllSpace(s[j0..m]) {
      StartWithoutS(s, p, t, m);
    } else {
      assert j0 + 1 < m && s[j0] == 's' && AllSpace(s[j0 + 1..m]);
      StartAfterS(s, p, t, m);
    }
  }

  /** White space right after the stem: `\s+` starts there and covers it. */
  lemma StartWithoutS(s: string, p: nat, t: Trigger, m: nat)
    requires StartsAt(s, p, t.stem) && p + |t.stem| < m <= |s| && AllSpace(s[p + |t.stem|..m])
    ensures SpacesStart(s, p, t) == p + |t.stem|
    ensures m - p - |t.stem| <= Span(s, p + |t.stem|, Whitespace)
  {
    var j0 := p + |t.stem|;
    assert IsSpace(s[j0]) by { assert s[j0] == s[j0..m][0]; }
    SpacesCover(s, j0, m);
  }

  /** An 's' and white space after the stem, in a match: `\s+` starts after
      the 's' and covers the white space. */
  lemma StartAfterS(s: string, p: nat, t: Trigger, m: nat)
    requires StartsAt(s, p, t.stem) && p + |t.stem| + 1 < m <= |s| && s[p + |t.stem|] == 's'
    requires AllSpace(s[p + |t.stem| + 1..m])
    requires GroupAfterSpaces(s, SpacesStart(s, p, t), Span(s, SpacesStart(s, p, t), Whitespace)).Some?
    ensures SpacesStart(s, p, t) == p + |t.stem| + 1
    ensures m - p - |t.stem| - 1 <= Span(s, p + |t.stem| + 1, Whitespace)
  {
    var j0 := p + |t.stem|;
    assert Span(s, j0, Whitespace) == 0;
    SpacesCover(s, j0 + 1, m);
  }

  /** No lazy group starts after the one `\s+` settles on, within the `k`
      characters it held at first. */
  lemma {:induction false} GroupAfterSpacesLatest(s: string, j: nat, k: nat)
    requires j + k <= |s| && GroupAfterSpaces(s, j, k).Some?
    ensures forall m, hi :: GroupAfterSpaces(s, j, k).value.lo < m <= j + k ==> !IsLazyGroup(s, m, hi)
    decreases k
  {
    if !(j + k < |s| && LazyGroupEnd(s, j + k + 1).Some?) {
      GroupAfterSpacesLatest(s, j, k - 1);
      forall m, hi | GroupAfterSpaces(s, j, k).value.lo < m <= j + k ensures !IsLazyGroup(s, m, hi) {
        if m == j + k && IsLazyGroup(s, m, hi) {
          LazyGroupEndIs(s, j + k + 1, hi);
        }
      }
    }
  }

  /** The converse of MatchAtShape: the stem, the optional 's', white space
      and a lazy group make the expression match at `p`, because `\s+` gives
      back white space until the lazy group can start. */
  lemma MatchAtOfShape(s: string, p: nat, t: Trigger, lo: nat, hi: nat)
    requires p <= |s| && TriggerBefore(s, p, t, lo) && IsLazyGroup(s, lo, hi)
    ensures MatchAt(s, p, t).Some?
  {
    var j := p + |t.stem|;
    LazyGroupEndIs(s, lo + 1, hi);
    if j < lo && AllSpace(s[j..lo]) {
      MatchAtWithoutS(s, p, t, lo);
    } else {
      MatchAtAfterS(s, p, t, lo);
    }
  }

  /** The expression matches with its optional 's' when white space and a
      lazy group follow it. */
  lemma MatchAtAfterS(s: string, p: nat, t: Trigger, lo: nat)
    requires StartsAt(s, p, t.stem) && t.optionalS
    requires p + |t.stem| + 1 < lo < |s| && s[p + |t.stem|] == 's'
    requires AllSpace(s[p + |t.stem| + 1..lo]) && LazyGroupEnd(s, lo + 1).Some?
    ensures MatchAt(s, p, t).Some?
  {
    var j := p + |t.stem| + 1;
    SpacesCover(s, j, lo);
    GroupAfterSpacesFinds(s, j, Span(s, j, Whitespace), lo - j);
  }

  /** The expression matches without an 's' when white space and a lazy
      group follow the stem. */
  lemma MatchAtWithoutS(s: string, p: nat, t: Trigger, lo: nat)
    requires StartsAt(s, p, t.stem)
    requires p + |t.stem| < lo < |s|
    requires AllSpace(s[p + |t.stem|..lo]) && LazyGroupEnd(s, lo + 1).Some?
    ensures MatchAt(s, p, t).Some?
  {
    var j := p + |t.stem|;
    assert IsSpace(s[j]) by { assert s[j] == s[j..lo][0]; }
    SpacesCover(s, j, lo);
    GroupAfterSpacesFinds(s, j, Span(s, j, Whitespace), lo - j);
    assert SpacesStart(s, p, t) == j;
  }

  /** White space from `i` to `lo` lies within the greedy run at `i`. */
  lemma SpacesCover(s: string, i: nat, lo: nat)
    requires i <= lo <= |s| && AllSpace(s[i..lo])
    ensures lo - i <= Span(s, i, Whitespace)
  {
    forall k | i <= k < lo ensures InClass(s[k], Whitespace) {
      assert s[k] == s[i..lo][k - i];
    }
    SpanAtLeast(s, i, Whitespace, lo - i);
  }

  /** `\s+` holding `k` characters, then giving them back one at a time,
      reaches `m` and succeeds there if not before. */
  lemma {:induction false} GroupAfterSpacesFinds(s: string, j: nat, k: nat, m: nat)
    requires 0 < m <= k && j + k <= |s| && j + m < |s|
    requires LazyGroupEnd(s, j + m + 1).Some?
    ensures GroupAfterSpaces(s, j, k).Some?
    decreases k
  {
    if k > m && !(j + k < |s| && LazyGroupEnd(s, j + k + 1).Some?) {
      GroupAfterSpacesFinds(s, j, k - 1, m);
    }
  }

  /** `re.search(pattern, s)`: the leftmost position at or after `p` where
      the trigger expression matches. */
  function SearchFrom(s: string, t: Trigger, p: nat): (r: Option<Hit>)
    requires p <= |s|
    ensures r.Some? ==> r.value.group.lo < r.value.group.hi <= |s|
    ensures r.Some? ==> p <= r.value.at <= |s| && MatchAt(s, r.value.at, t) == Some(r.value.group)
                        && forall i :: p <= i < r.value.at ==> MatchAt(s, i, t).None?
    ensures r.None? ==> forall i :: p <= i <= |s| ==> MatchAt(s, i, t).None?
    decreases |s| - p
  {
    match MatchAt(s, p, t)
    case Some(g) => Some(Hit(p, g))
    case None => if p < |s| then SearchFrom(s, t, p + 1) else None
  }

  /** `re.search(pattern, s)` from the start of `s`. */
  function Search(s: string, t: Trigger): (r: Option<Hit>)
    ensures r.Some? ==> r.value.group.lo < r.value.group.hi <= |s|
    ensures r.Some? ==> r.value.at <= |s| && MatchAt(s, r.value.at, t) == Some(r.value.group)
                        && forall i :: 0 <= i < r.value.at ==> MatchAt(s, i, t).None?
  {
    SearchFrom(s, t, 0)
  }

  /** The loop of lines 198-212: the hit of the first trigger that matches,
      with its index in `ts`. */
  function FirstTrigger(s: string, ts: seq<Trigger>): (r: Option<(nat, Hit)>)
    ensures r.None? <==> forall i :: 0 <= i < |ts| ==> Search(s, ts[i]).None?
    ensures r.Some? ==> r.value.1.group.lo < r.value.1.group.hi <= |s|
    ensures r.Some? ==> r.value.0 < |ts| && Search(s, ts[r.value.0]) == Some(r.value.1)
                        && forall i :: 0 <= i < r.value.0 ==> Search(s, ts[i]).None?
    decreases |ts|
  {
    if ts == [] then None
    else
      match Search(s, ts[0])
      case Some(h) => Some((0, h))
      case None =>
        match FirstTrigger(s, ts[1..])
        case None => None
        case Some((i, h)) => Some((i + 1, h))
  }

  // ---------------------------------------------------------------------------
  // The budget: `entre\s+(\d+)\s*(?:et|à|-)\s*(\d+)`

  /** The length of the connector `(?:et|à|-)` at `i`, or 0 if there is none. */
  function ConnectorLength(s: string, i: nat): (n: nat)
    ensures n <= 2
    ensures n > 0 ==> i + n <= |s|
  {
    if StartsAt(s, i, "et") then 2
    else if StartsAt(s, i, "à") || StartsAt(s, i, "-") then 1
    else 0
  }

  /** `(\d+)` at `i`: the value of the digits and where they end, or None
      when no digit is there. */
  function AmountAt(s: string, i: nat): (r: Option<(nat, nat)>)
    requires i <= |s|
    ensures r.Some? ==> i < r.value.1 <= |s|
  {
    var d := Span(s, i, Digit);
    if d == 0 then None else Some((DigitRunValue(s, i), i + d))
  }

  /** `\s*(?:et|à|-)\s*(\d+)` at `i`: the second amount. */
  function ConnectedAmount(s: string, i: nat): (r: Option<nat>)
    requires i <= |s|
    ensures r.Some? ==> i + 2 <= |s|
  {
    var i3 := i + Span(s, i, Whitespace);
    var c := ConnectorLength(s, i3);
    if c == 0 then None
    else
      var i4 := i3 + c;
      match AmountAt(s, i4 + Span(s, i4, Whitespace))
      case None => None
      case Some((v, _)) => Some(v)
  }

  /** The budget expression tried at `p`. Each `\s`-run is followed by a digit
      or by a connector that starts with a non-space, and each digit run by a
      non-digit, so backtracking can never help: every run is taken whole. */
  function BudgetAt(s: string, p: nat): (r: Option<Budget>)
    requires p <= |s|
    ensures r.Some? ==> StartsAt(s, p, "entre") && p + 9 <= |s|
  {
    if !StartsAt(s, p, "entre") then None else BudgetAfter(s, p + 5)
  }

  /** `\s+(\d+)\s*(?:et|à|-)\s*(\d+)` at `q`, the rest of the budget expression. */
  function BudgetAfter(s: string, q: nat): (r: Option<Budget>)
    requires q <= |s|
    ensures r.Some? ==> q + 4 <= |s| && IsSpace(s[q])
  {
    var w := Span(s, q, Whitespace);
    if w == 0 then None
    else
      match AmountAt(s, q + w)
      case None => None
      case Some((low, i2)) =>
        match ConnectedAmount(s, i2)
        case None => None
        case Some(high) => Some(Budget(low, high))
  }

  /** `re.search` of the budget expression: the leftmost position at or after
      `p` where it matches (BudgetSearchFirst, BudgetSearchNone). */
  function BudgetSearch(s: string, p: nat): (r: Option<Budget>)
    requires p <= |s|
    ensures r.Some? ==> exists i :: p <= i <= |s| && BudgetAt(s, i) == r
    decreases |s| - p
  {
    match BudgetAt(s, p)
    case Some(b) => Some(b)
    case None => if p < |s| then BudgetSearch(s, p + 1) else None
  }

  /** The search finds the budget at the first position where the expression matches. */
  lemma {:induction false} BudgetSearchFirst(s: string, p: nat, i: nat)
    requires p <= i <= |s| && BudgetAt(s, i).Some?
    requires forall k :: p <= k < i ==> BudgetAt(s, k).None?
    ensures BudgetSearch(s, p) == BudgetAt(s, i)
    decreases i - p
  {
    if p < i {
      assert BudgetAt(s, p).None?;
      assert BudgetSearch(s, p) == BudgetSearch(s, p + 1);
      BudgetSearchFirst(s, p + 1, i);
    } else {
      assert BudgetSearch(s, p) == Some(BudgetAt(s, p).value);
    }
  }

  /** The search finds nothing exactly when the expression matches nowhere. */
  lemma {:induction false} BudgetSearchNone(s: string, p: nat)
    requires p <= |s|
    ensures BudgetSearch(s, p).None? <==> forall i :: p <= i <= |s| ==> BudgetAt(s, i).None?
    decreases |s| - p
  {
    if BudgetAt(s, p).None? && p < |s| {
      assert BudgetSearch(s, p) == BudgetSearch(s, p + 1);
      BudgetSearchNone(s, p + 1);
    }
  }

  /** A run of digits `a` at `i` up to `e`, not followed by another digit, is read as `int(a)`. */
  lemma AmountOfDigits(s: string, i: nat, a: string, e: nat)
    requires StartsAt(s, i, a) && a != [] && AllDigits(a) && e == i + |a|
    requires e == |s| || !IsDigit(s[e])
    ensures AmountAt(s, i) == Some((DigitsValue(a), e))
  {
    DigitRunOf(s, i, a);
    AmountOfRun(s, i, a, e);
  }

  /** `AmountAt` once the digit run at `i` is known to be `a`. */
  lemma AmountOfRun(s: string, i: nat, a: string, e: nat)
    requires i <= |s| && Span(s, i, Digit) == |a| && a != [] && AllDigits(a) && e == i + |a|
    requires DigitRunValue(s, i) == DigitsValue(a)
    ensures AmountAt(s, i) == Some((DigitsValue(a), e))
  {
  }

  /** Each of the three connectors is recognised with its own length. */
  lemma ConnectorOf(s: string, i: nat, conn: string)
    requires StartsAt(s, i, conn)
    requires conn == "et" || conn == "à" || conn == "-"
    ensures ConnectorLength(s, i) == |conn|
  {
    assert s[i] == s[i..i + |conn|][0] == conn[0];
    if conn != "et" {
      assert !StartsAt(s, i, "et");
    }
  }

  /** White space `sp` that a non-space follows: `\s*` takes exactly `sp`. */
  lemma SpacesThen(s: string, i: nat, sp: string, x: string)
    requires StartsAt(s, i, sp) && StartsAt(s, i + |sp|, x) && AllSpace(sp)
    requires x != [] && !IsSpace(x[0])
    ensures Span(s, i, Whitespace) == |sp|
  {
    var j := i + |sp|;
    assert s[j] == s[j..j + |x|][0] == x[0];
    SpanOfPiece(s, i, sp, Whitespace);
  }

  /** `ConnectedAmount` from the positions its runs end at. */
  lemma ConnectedAmountIs(s: string, i: nat, i3: nat, i4: nat, j: nat, v: nat, e: nat)
    requires i <= |s| && i + Span(s, i, Whitespace) == i3
    requires ConnectorLength(s, i3) > 0 && i3 + ConnectorLength(s, i3) == i4
    requires i4 <= |s| && i4 + Span(s, i4, Whitespace) == j
    requires AmountAt(s, j) == Some((v, e))
    ensures ConnectedAmount(s, i) == Some(v)
  {
  }

  /** `BudgetAfter` from the positions its runs end at. */
  lemma BudgetAfterIs(s: string, q: nat, low: nat, i2: nat, high: nat)
    requires q <= |s| && Span(s, q, Whitespace) > 0
    requires AmountAt(s, q + Span(s, q, Whitespace)) == Some((low, i2))
    requires ConnectedAmount(s, i2) == Some(high)
    ensures BudgetAfter(s, q) == Some(Budget(low, high))
  {
  }

  /** `BudgetAt` from the positions its runs end at. */
  lemma BudgetAtIs(s: string, p: nat, ia: nat, low: nat, i2: nat, high: nat)
    requires p <= |s| && StartsAt(s, p, "entre")
    requires Span(s, p + 5, Whitespace) > 0 && p + 5 + Span(s, p + 5, Whitespace) == ia
    requires AmountAt(s, ia) == Some((low, i2))
    requires ConnectedAmount(s, i2) == Some(high)
    ensures BudgetAt(s, p) == Some(Budget(low, high))
  {
    BudgetAfterIs(s, p + 5, low, i2, high);
  }

  /** The runs `\s*(?:et|à|-)\s*(\d+)` takes over sp2 + conn + sp3 + b at `i`,
      which end at `i3`, `i4`, `j` and `e`. */
  lemma ConnectedRuns(s: string, i: nat, sp2: string, conn: string, sp3: string, b: string,
                      i3: nat, i4: nat, j: nat, e: nat)
    requires i3 == i + |sp2| && i4 == i3 + |conn| && j == i4 + |sp3| && e == j + |b|
    requires StartsAt(s, i, sp2) && StartsAt(s, i3, conn) && StartsAt(s, i4, sp3) && StartsAt(s, j, b)
    requires AllSpace(sp2) && AllSpace(sp3) && b != [] && AllDigits(b)
    requires conn == "et" || conn == "à" || conn == "-"
    requires e == |s| || !IsDigit(s[e])
    ensures i + Span(s, i, Whitespace) == i3
    ensures ConnectorLength(s, i3) > 0 && i3 + ConnectorLength(s, i3) == i4
    ensures i4 + Span(s, i4, Whitespace) == j
    ensures AmountAt(s, j) == Some((DigitsValue(b), e))
  {
    SpacesThen(s, i, sp2, conn);
    ConnectorOf(s, i3, conn);
    SpacesThen(s, i4, sp3, b);
    AmountOfDigits(s, j, b, e);
  }

  /** `ConnectedAmount` over sp2 + conn + sp3 + b laid out at `i`. */
  lemma ConnectedAmountOf(s: string, i: nat, sp2: string, conn: string, sp3: string, b: string,
                          i3: nat, i4: nat, j: nat, e: nat)
    requires i3 == i + |sp2| && i4 == i3 + |conn| && j == i4 + |sp3| && e == j + |b|
    requires StartsAt(s, i, sp2) && StartsAt(s, i3, conn) && StartsAt(s, i4, sp3) && StartsAt(s, j, b)
    requires AllSpace(sp2) && AllSpace(sp3) && b != [] && AllDigits(b)
    requires conn == "et" || conn == "à" || conn == "-"
    requires e == |s| || !IsDigit(s[e])
    ensures ConnectedAmount(s, i) == Some(DigitsValue(b))
  {
    ConnectedRuns(s, i, sp2, conn, sp3, b, i3, i4, j, e);
    ConnectedAmountIs(s, i, i3, i4, j, DigitsValue(b), e);
  }

  /** Where the pieces of "entre" + sp1 + a + sp2 + conn + sp3 + b + rest lie:
      at `p`, `p + 5`, `ia`, `i2`, `i3`, `i4`, `j` and `e`. */
  lemma PhraseLayout(s: string, p: nat, sp1: string, a: string, sp2: string, conn: string,
                     sp3: string, b: string, rest: string,
                     ia: nat, i2: nat, i3: nat, i4: nat, j: nat, e: nat)
    requires p <= |s| && s[p..] == "entre" + sp1 + a + sp2 + conn + sp3 + b + rest
    requires ia == p + 5 + |sp1| && i2 == ia + |a| && i3 == i2 + |sp2|
    requires i4 == i3 + |conn| && j == i4 + |sp3| && e == j + |b|
    ensures StartsAt(s, p, "entre") && StartsAt(s, p + 5, sp1) && StartsAt(s, ia, a)
    ensures StartsAt(s, i2, sp2) && StartsAt(s, i3, conn) && StartsAt(s, i4, sp3) && StartsAt(s, j, b)
    ensures s[e..] == rest
  {
    var t3 := sp2 + conn + sp3 + b + rest;
    var t2 := a + t3;
    var t1 := sp1 + t2;
    assert s[p..] == "entre" + t1;
    Peel(s, p, "entre", t1);
    Peel(s, p + 5, sp1, t2);
    Peel(s, ia, a, t3);
    ConnectedLayout(s, i2, sp2, conn, sp3, b, rest, i3, i4, j, e);
  }

  /** Where the pieces of sp2 + conn + sp3 + b + rest lie: at `i`, `i3`, `i4`,
      `j` and `e`. */
  lemma ConnectedLayout(s: string, i: nat, sp2: string, conn: string, sp3: string, b: string,
                        rest: string, i3: nat, i4: nat, j: nat, e: nat)
    requires i <= |s| && s[i..] == sp2 + conn + sp3 + b + rest
    requires i3 == i + |sp2| && i4 == i3 + |conn| && j == i4 + |sp3| && e == j + |b|
    ensures StartsAt(s, i, sp2) && StartsAt(s, i3, conn) && StartsAt(s, i4, sp3) && StartsAt(s, j, b)
    ensures s[e..] == rest
  {
    var t6 := b + rest;
    var t5 := sp3 + t6;
    var t4 := conn + t5;
    assert s[i..] == sp2 + t4;
    Peel(s, i, sp2, t4);
    Peel(s, i3, conn, t5);
    Peel(s, i4, sp3, t6);
    Peel(s, j, b, rest);
  }

  /** `entre\s+(\d+)` over pieces at known positions, the digits followed by a
      piece `x` that starts with a non-digit. */
  lemma FirstAmountRuns(s: string, p: nat, sp1: string, a: string, x: string, ia: nat, i2: nat)
    requires StartsAt(s, p + 5, sp1) && StartsAt(s, ia, a) && StartsAt(s, i2, x)
    requires ia == p + 5 + |sp1| && i2 == ia + |a|
    requires sp1 != [] && AllSpace(sp1) && a != [] && AllDigits(a) && x != [] && !IsDigit(x[0])
    ensures Span(s, p + 5, Whitespace) > 0 && p + 5 + Span(s, p + 5, Whitespace) == ia
    ensures AmountAt(s, ia) == Some((DigitsValue(a), i2))
  {
    FirstOf(s, ia, a);
    SpanOfPiece(s, p + 5, sp1, Whitespace);
    FirstOf(s, i2, x);
    AmountOfDigits(s, ia, a, i2);
  }

  /** `entre\s+(\d+)` over a laid-out phrase reads the first amount. */
  lemma PhraseFirstAmount(s: string, p: nat, sp1: string, a: string, sp2: string, conn: string,
                          sp3: string, b: string, rest: string, ia: nat, i2: nat)
    requires p <= |s| && s[p..] == "entre" + sp1 + a + sp2 + conn + sp3 + b + rest
    requires ia == p + 5 + |sp1| && i2 == ia + |a|
    requires sp1 != [] && AllSpace(sp1) && AllSpace(sp2) && a != [] && AllDigits(a)
    requires conn == "et" || conn == "à" || conn == "-"
    ensures StartsAt(s, p, "entre")
    ensures Span(s, p + 5, Whitespace) > 0 && p + 5 + Span(s, p + 5, Whitespace) == ia
    ensures AmountAt(s, ia) == Some((DigitsValue(a), i2))
  {
    var i3 := i2 + |sp2|;
    var i4 := i3 + |conn|;
    var j := i4 + |sp3|;
    PhraseLayout(s, p, sp1, a, sp2, conn, sp3, b, rest, ia, i2, i3, i4, j, j + |b|);
    if sp2 != [] {
      assert IsSpace(sp2[0]);
      FirstAmountRuns(s, p, sp1, a, sp2, ia, i2);
    } else {
      FirstAmountRuns(s, p, sp1, a, conn, ia, i2);
    }
  }

  /** `\s*(?:et|à|-)\s*(\d+)` over a laid-out phrase reads the second amount. */
  lemma PhraseSecondAmount(s: string, p: nat, sp1: string, a: string, sp2: string, conn: string,
                           sp3: string, b: string, rest: string, i2: nat)
    requires p <= |s| && s[p..] == "entre" + sp1 + a + sp2 + conn + sp3 + b + rest
    requires i2 == p + 5 + |sp1| + |a|
    requires AllSpace(sp2) && AllSpace(sp3) && b != [] && AllDigits(b)
    requires conn == "et" || conn == "à" || conn == "-"
    requires rest == [] || !IsDigit(rest[0])
    ensures ConnectedAmount(s, i2) == Some(DigitsValue(b))
  {
    var i3 := i2 + |sp2|;
    var i4 := i3 + |conn|;
    var j := i4 + |sp3|;
    var e := j + |b|;
    PhraseLayout(s, p, sp1, a, sp2, conn, sp3, b, rest, p + 5 + |sp1|, i2, i3, i4, j, e);
    assert e == |s| || s[e] == rest[0];
    ConnectedAmountOf(s, i2, sp2, conn, sp3, b, i3, i4, j, e);
  }

  /** The inverse of writing a budget: at the start of
      "entre" + sp1 + a + sp2 + conn + sp3 + b the budget expression reads
      back the two amounts. */
  lemma BudgetOfPhrase(s: string, p: nat, sp1: string, a: string, sp2: string, conn: string,
                       sp3: string, b: string, rest: string)
    requires p <= |s| && s[p..] == "entre" + sp1 + a + sp2 + conn + sp3 + b + rest
    requires sp1 != [] && AllSpace(sp1) && AllSpace(sp2) && AllSpace(sp3)
    requires a != [] && AllDigits(a) && b != [] && AllDigits(b)
    requires conn == "et" || conn == "à" || conn == "-"
    requires rest == [] || !IsDigit(rest[0])
    ensures BudgetAt(s, p) == Some(Budget(DigitsValue(a), DigitsValue(b)))
  {
    var ia := p + 5 + |sp1|;
    var i2 := ia + |a|;
    PhraseFirstAmount(s, p, sp1, a, sp2, conn, sp3, b, rest, ia, i2);
    PhraseSecondAmount(s, p, sp1, a, sp2, conn, sp3, b, rest, i2);
    BudgetAtIs(s, p, ia, DigitsValue(a), i2, DigitsValue(b));
  }

  /** The connector `(?:et|à|-)` at `i`, `n` characters long. */
  predicate ConnectorAt(s: string, i: nat, n: nat) {
    (n == 2 && StartsAt(s, i, "et")) || (n == 1 && (StartsAt(s, i, "à") || StartsAt(s, i, "-")))
  }

  /** The budget phrase laid out from `p`: "entre", white space up to `ia`,
      digits up to `i2`, white space up to `i3`, a connector up to `i4`,
      white space up to `j` and digits up to `e`, each digit run whole. */
  predicate BudgetPhraseAt(s: string, p: nat, ia: nat, i2: nat, i3: nat, i4: nat, j: nat, e: nat) {
    p + 5 < ia < i2 <= i3 < i4 <= j < e <= |s|
    && StartsAt(s, p, "entre") && AllSpace(s[p + 5..ia]) && AllDigits(s[ia..i2])
    && AllSpace(s[i2..i3]) && ConnectorAt(s, i3, i4 - i3) && AllSpace(s[i4..j])
    && AllDigits(s[j..e]) && (e == |s| || !IsDigit(s[e]))
  }

  /** The white space a greedy `\s*` takes. */
  lemma SpaceSpanIsSpace(s: string, i: nat)
    requires i <= |s|
    ensures AllSpace(s[i..i + Span(s, i, Whitespace)])
  {
    SpanShape(s, i, Whitespace);
    var t := s[i..i + Span(s, i, Whitespace)];
    forall k | 0 <= k < |t| ensures IsSpace(t[k]) {
      assert t[k] == s[i + k] && InClass(s[i + k], Whitespace);
    }
  }

  /** What `(\d+)` read at `i`: a whole digit run, and its integer. */
  lemma AmountRun(s: string, i: nat, v: nat, e: nat)
    requires i <= |s| && AmountAt(s, i) == Some((v, e))
    ensures i < e <= |s| && AllDigits(s[i..e]) && (e == |s| || !IsDigit(s[e]))
    ensures v == DigitsValue(s[i..e])
  {
    DigitSpanIsDigits(s, i);
    SpanShape(s, i, Digit);
  }

  /** What `\s*(?:et|à|-)\s*(\d+)` read at `i`: its pieces end at `i3`,
      `i4`, `j` and `e`, and the amount is the integer of the last run. */
  lemma ConnectedRun(s: string, i: nat) returns (i3: nat, i4: nat, j: nat, e: nat)
    requires i <= |s| && ConnectedAmount(s, i).Some?
    ensures i <= i3 < i4 <= j < e <= |s|
    ensures AllSpace(s[i..i3]) && ConnectorAt(s, i3, i4 - i3) && AllSpace(s[i4..j])
    ensures AllDigits(s[j..e]) && (e == |s| || !IsDigit(s[e]))
    ensures ConnectedAmount(s, i).value == DigitsValue(s[j..e])
  {
    i3 := i + Span(s, i, Whitespace);
    i4 := i3 + ConnectorLength(s, i3);
    j := i4 + Span(s, i4, Whitespace);
    SpaceSpanIsSpace(s, i);
    SpaceSpanIsSpace(s, i4);
    var r := AmountAt(s, j);
    assert r.Some?;
    e := r.value.1;
    AmountRun(s, j, r.value.0, e);
  }

  /** The converse of BudgetOfPhrase: wherever the budget expression matches,
      the text there is the budget phrase, and the bounds are the integers its
      two digit runs spell. */
  lemma PhraseOfBudget(s: string, p: nat) returns (ia: nat, i2: nat, i3: nat, i4: nat, j: nat, e: nat)
    requires p <= |s| && BudgetAt(s, p).Some?
    ensures BudgetPhraseAt(s, p, ia, i2, i3, i4, j, e)
    ensures BudgetAt(s, p).value == Budget(DigitsValue(s[ia..i2]), DigitsValue(s[j..e]))
  {
    var q := p + 5;
    ia := q + Span(s, q, Whitespace);
    SpaceSpanIsSpace(s, q);
    var first := AmountAt(s, ia);
    assert first.Some?;
    i2 := first.value.1;
    AmountRun(s, ia, first.value.0, i2);
    i3, i4, j, e := ConnectedRun(s, i2);
  }

  /** `re.search` passes over positions where the expression cannot match. */
  lemma {:induction false} BudgetSearchSkip(s: string, p: nat, q: nat)
    requires p <= q <= |s|
    requires forall i :: p <= i < q ==> !StartsAt(s, i, "entre")
    ensures BudgetSearch(s, p) == BudgetSearch(s, q)
    decreases q - p
  {
    if p < q {
      assert BudgetAt(s, p).None?;
      assert BudgetSearch(s, p) == BudgetSearch(s, p + 1);
      BudgetSearchSkip(s, p + 1, q);
    }
  }

  // ---------------------------------------------------------------------------
  // extract_search_intent

  /** `conversation_history[-1].get('content', '')`. */
  function LastMessage(history: seq<Turn>): (m: string)
    requires history != []
    ensures history[|history| - 1].content.Some? ==> m == history[|history| - 1].content.value
    ensures history[|history| - 1].content.None? ==> m == []
  {
    history[|history| - 1].content.GetOr("")
  }

  /** `extract_search_intent(conversation_history)` of lines 183-214. */
  function ExtractSearchIntent(history: seq<Turn>): (r: Option<SearchIntent>)
    ensures history == [] ==> r.None?
    ensures history != [] ==>
              (r.Some? <==> exists i :: 0 <= i < |Triggers| && Search(Lower(LastMessage(history)), Triggers[i]).Some?)
  {
    if history == [] then None else IntentOf(Lower(LastMessage(history)))
  }

  /** Lines 197-214 on the lowered last message: the stripped group of the
      first expression that matches, with the budget found anywhere in the
      message or the default one. */
  function IntentOf(msg: string): (r: Option<SearchIntent>)
    ensures r.Some? <==> exists i :: 0 <= i < |Triggers| && Search(msg, Triggers[i]).Some?
  {
    match FirstTrigger(msg, Triggers)
    case None => None
    case Some((_, hit)) =>
      var budget := BudgetSearch(msg, 0).GetOr(Budget(DefaultMinPrice, DefaultMaxPrice));
      Some(SearchIntent(Strip(msg[hit.group.lo..hit.group.hi]), budget.low, budget.high))
  }
}
