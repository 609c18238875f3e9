/** What `extract_search_intent` promises, stated over the matchers of module
    Intent: when it answers None, what the query is, where the budget comes
    from, and that the announcement format the assistant is told to use
    (app.py line 450) reads back as the query and the two bounds it carries. */
module IntentFacts {
  import opened Values
  import opened Text
  import opened Intent

  // ---------------------------------------------------------------------------
  // No trigger, no intent

  /** A trigger expression can only match where its stem occurs. */
  lemma SearchNeedsStem(s: string, t: Trigger)
    ensures Search(s, t).Some? ==> Occurs(t.stem, s)
  {
    if Search(s, t).Some? {
      var h := Search(s, t).value;
      assert StartsAt(s, h.at, t.stem);
    }
  }

  /** None of "cherchon", "recherche", "regardon" in the lowered last message:
      no search is announced. */
  lemma NoTriggerNoIntent(history: seq<Turn>)
    requires history != []
    requires forall i :: 0 <= i < |Triggers| ==> !Occurs(Triggers[i].stem, Lower(LastMessage(history)))
    ensures ExtractSearchIntent(history) == None
  {
    var msg := Lower(LastMessage(history));
    forall i | 0 <= i < |Triggers| ensures Search(msg, Triggers[i]).None? {
      SearchNeedsStem(msg, Triggers[i]);
    }
  }

  // ---------------------------------------------------------------------------
  // The query

  /** Trigger `i` matches with hit `h`, and it is the match the loop over the
      expressions returns: no earlier expression matches anywhere in `msg`, and
      this one matches nowhere before `h.at`. */
  predicate FirstMatch(msg: string, i: nat, h: Hit) {
    i < |Triggers| && h.at <= |msg|
    && MatchAt(msg, h.at, Triggers[i]) == Some(h.group)
    && (forall q :: 0 <= q < h.at ==> MatchAt(msg, q, Triggers[i]).None?)
    && (forall j, q :: 0 <= j < i && 0 <= q <= |msg| ==> MatchAt(msg, q, Triggers[j]).None?)
  }

  /** An announced search comes from the first expression that matches, at its
      leftmost match: the stem, an optional 's', white space, then the shortest
      newline-free text that the end alternation follows, starting as late as
      the white space allows; the query is that text stripped. */
  lemma QueryShape(history: seq<Turn>)
    requires ExtractSearchIntent(history).Some?
    ensures history != []
    ensures var msg := Lower(LastMessage(history));
            exists i: nat, h: Hit :: FirstMatch(msg, i, h)
              && TriggerBefore(msg, h.at, Triggers[i], h.group.lo)
              && IsLazyGroup(msg, h.group.lo, h.group.hi)
              && LatestStart(msg, h.at, Triggers[i], h.group.lo)
              && ExtractSearchIntent(history).value.query == Strip(msg[h.group.lo..h.group.hi])
  {
    var msg := Lower(LastMessage(history));
    FirstTriggerShape(msg);
    var ft := FirstTrigger(msg, Triggers);
    assert FirstMatch(msg, ft.value.0, ft.value.1);
  }

  /** The hit of the first trigger that matches is a first match, and its
      group is the latest-starting lazy group that the trigger precedes. */
  lemma FirstTriggerShape(msg: string)
    requires FirstTrigger(msg, Triggers).Some?
    ensures var ft := FirstTrigger(msg, Triggers);
            var i, h := ft.value.0, ft.value.1;
            FirstMatch(msg, i, h)
            && TriggerBefore(msg, h.at, Triggers[i], h.group.lo)
            && IsLazyGroup(msg, h.group.lo, h.group.hi)
            && LatestStart(msg, h.at, Triggers[i], h.group.lo)
  {
    var ft := FirstTrigger(msg, Triggers);
    var i, h := ft.value.0, ft.value.1;
    MatchAtShape(msg, h.at, Triggers[i]);
    forall j, q | 0 <= j < i && 0 <= q <= |msg| ensures MatchAt(msg, q, Triggers[j]).None? {
      assert SearchFrom(msg, Triggers[j], 0).None?;
    }
  }

  /** The query is lower case, has no white space at either end and no
      newline, and is a piece of the lowered last message. */
  lemma QueryIsClean(history: seq<Turn>)
    requires ExtractSearchIntent(history).Some?
    ensures var q := ExtractSearchIntent(history).value.query;
            IsLowercase(q) && (q == [] || (!IsSpace(q[0]) && !IsSpace(q[|q| - 1])))
            && (forall k :: 0 <= k < |q| ==> q[k] != '\n')
            && Occurs(q, Lower(LastMessage(history)))
  {
    var msg := Lower(LastMessage(history));
    var ft := FirstTrigger(msg, Triggers);
    var lo, hi := ft.value.1.group.lo, ft.value.1.group.hi;
    MatchAtShape(msg, ft.value.1.at, Triggers[ft.value.0]);
    LowerIsLowercase(LastMessage(history));
    QueryPiece(msg, lo, hi);
  }

  /** The stripped text of a lazy group in a lowered message is a lower-case
      piece of the message without newline. */
  lemma QueryPiece(msg: string, lo: nat, hi: nat)
    requires IsLowercase(msg) && IsLazyGroup(msg, lo, hi)
    ensures var q := Strip(msg[lo..hi]);
            IsLowercase(q) && (forall k :: 0 <= k < |q| ==> q[k] != '\n') && Occurs(q, msg)
  {
    var q := Strip(msg[lo..hi]);
    var i := StripWithin(msg, lo, hi);
    LowercasePiece(msg, i, q);
    forall k | 0 <= k < |q| ensures q[k] == msg[i + k] && i + k < hi {
      assert msg[i..i + |q|][k] == msg[i + k];
    }
  }

  // ---------------------------------------------------------------------------
  // The budget

  /** The bounds come from the leftmost budget phrase in the whole message,
      wherever it stands relative to the trigger. */
  lemma IntentBudgetFound(history: seq<Turn>, p: nat)
    requires ExtractSearchIntent(history).Some?
    requires var msg := Lower(LastMessage(history));
             p <= |msg| && BudgetAt(msg, p).Some? && forall k :: 0 <= k < p ==> BudgetAt(msg, k).None?
    ensures var msg := Lower(LastMessage(history));
            var r := ExtractSearchIntent(history).value;
            r.minPrice == BudgetAt(msg, p).value.low && r.maxPrice == BudgetAt(msg, p).value.high
  {
    BudgetSearchFirst(Lower(LastMessage(history)), 0, p);
  }

  /** The bounds are the integers spelled by the two digit runs of the
      leftmost budget phrase: "entre", white space, digits, a connector
      between optional white space, digits. */
  lemma IntentBudgetPhrase(history: seq<Turn>, p: nat) returns (ia: nat, i2: nat, i3: nat, i4: nat, j: nat, e: nat)
    requires ExtractSearchIntent(history).Some?
    requires var msg := Lower(LastMessage(history));
             p <= |msg| && BudgetAt(msg, p).Some? && forall k :: 0 <= k < p ==> BudgetAt(msg, k).None?
    ensures var msg := Lower(LastMessage(history));
            BudgetPhraseAt(msg, p, ia, i2, i3, i4, j, e)
            && ExtractSearchIntent(history).value.minPrice == DigitsValue(msg[ia..i2])
            && ExtractSearchIntent(history).value.maxPrice == DigitsValue(msg[j..e])
  {
    IntentBudgetFound(history, p);
    ia, i2, i3, i4, j, e := PhraseOfBudget(Lower(LastMessage(history)), p);
  }

  /** With no budget phrase anywhere the bounds are 0 and 1000. */
  lemma IntentBudgetDefault(history: seq<Turn>)
    requires ExtractSearchIntent(history).Some?
    requires var msg := Lower(LastMessage(history));
             forall k :: 0 <= k <= |msg| ==> BudgetAt(msg, k).None?
    ensures ExtractSearchIntent(history).value.minPrice == DefaultMinPrice
    ensures ExtractSearchIntent(history).value.maxPrice == DefaultMaxPrice
  {
    BudgetSearchNone(Lower(LastMessage(history)), 0);
  }

  // ---------------------------------------------------------------------------
  // The announcement format reads back

  /** "cherchons [terme de recherche] entre [prix_min] et [prix_max]". */
  function Announcement(w: string, low: string, high: string): string {
    "cherchons " + w + " " + "entre" + " " + low + " " + "et" + " " + high
  }

  /** A search term the format carries unchanged: no white space at either
      end, no '.' and no newline, no "entre" in it, and no stop word right
      after white space inside it. */
  predicate SearchTerm(w: string) {
    w != [] && !IsSpace(w[0]) && !IsSpace(w[|w| - 1])
    && (forall k :: 0 <= k < |w| ==> w[k] != '.' && w[k] != '\n')
    && !Occurs("entre", w)
    && forall k :: 0 < k < |w| && IsSpace(w[k - 1]) ==> !StopWordAt(w, k)
  }

  /** A word found at `k` of `s`, where `k` lies in a piece `w` at `off` that
      a character foreign to the word follows, lies within `w`. */
  lemma Confined(s: string, off: nat, w: string, x: string, k: nat)
    requires StartsAt(s, off, w) && off + |w| < |s| && off <= k <= off + |w| && x != []
    requires forall c :: 0 <= c < |x| ==> x[c] != s[off + |w|]
    ensures StartsAt(s, k, x) ==> k + |x| <= off + |w| && StartsAt(w, k - off, x)
  {
    forall c | 0 <= c < |x| ensures StartsAt(s, k, x) ==> s[k + c] == x[c] {
      if StartsAt(s, k, x) {
        assert s[k..k + |x|][c] == s[k + c];
      }
    }
    var d := off + |w| - k;
    assert d < |x| ==> x[d] != s[off + |w|];
    if k + |x| <= off + |w| {
      forall j | k - off <= j < k - off + |x| ensures w[j] == s[off + j] {
        assert s[off..off + |w|][j] == s[off + j];
      }
      assert w[k - off..k - off + |x|] == s[k..k + |x|];
    }
  }

  /** A stop word at `k` of `s` inside `w`, which a space follows, is a stop word of `w`. */
  lemma StopWordConfined(s: string, off: nat, w: string, k: nat)
    requires StartsAt(s, off, w) && off + |w| < |s| && s[off + |w|] == ' ' && off <= k <= off + |w|
    ensures StopWordAt(s, k) ==> StopWordAt(w, k - off)
  {
    Confined(s, off, w, "entre", k);
    Confined(s, off, w, "dans", k);
    Confined(s, off, w, "à", k);
    Confined(s, off, w, "pour", k);
  }

  /** Where the pieces of an announcement stand. */
  lemma AnnouncementLayout(w: string, low: string, high: string, s: string)
    requires s == Announcement(w, low, high)
    ensures StartsAt(s, 0, "cherchons ") && StartsAt(s, 10, w) && StartsAt(s, 10 + |w|, " ")
    ensures 11 + |w| <= |s| && s[11 + |w|..] == "entre" + " " + low + " " + "et" + " " + high + []
  {
    var t := "entre" + " " + low + " " + "et" + " " + high + [];
    assert s[0..] == "cherchons " + (w + (" " + t));
    Peel(s, 0, "cherchons ", w + (" " + t));
    Peel(s, 10, w, " " + t);
    Peel(s, 10 + |w|, " ", t);
  }

  /** Inside the search term the end alternation never matches. */
  lemma NoEndInside(s: string, w: string, e: nat)
    requires SearchTerm(w) && StartsAt(s, 10, w) && StartsAt(s, 10 + |w|, " ") && 11 + |w| < |s|
    requires 11 <= e < 10 + |w|
    ensures !QueryEndsAt(s, e)
  {
    var n := |w|;
    assert s[e] == w[e - 10] by { assert s[10..10 + n][e - 10] == s[e]; }
    assert s[9 + n] == w[n - 1] by { assert s[10..10 + n][n - 1] == s[9 + n]; }
    assert s[10 + n] == ' ' by { assert s[10 + n..11 + n][0] == s[10 + n]; }
    SpanShape(s, e, Whitespace);
    var m := Span(s, e, Whitespace);
    assert !InClass(s[9 + n], Whitespace);
    var k := e + m - 10;
    assert m > 0 ==> IsSpace(w[k - 1]) by {
      if m > 0 {
        assert InClass(s[e + m - 1], Whitespace);
        assert s[10..10 + n][k - 1] == s[e + m - 1];
      }
    }
    StopWordConfined(s, 10, w, e + m);
  }

  /** "entre" first occurs in an announcement right after the search term. */
  lemma NoBudgetBefore(s: string, w: string)
    requires SearchTerm(w) && StartsAt(s, 0, "cherchons ") && StartsAt(s, 10, w)
    requires StartsAt(s, 10 + |w|, " ") && 11 + |w| < |s|
    ensures forall i :: 0 <= i < 11 + |w| ==> !StartsAt(s, i, "entre")
  {
    assert s[10 + |w|] == ' ' by { assert s[10 + |w|..11 + |w|][0] == s[10 + |w|]; }
    forall i | 0 <= i < 11 + |w| ensures !StartsAt(s, i, "entre") {
      if i < 10 {
        assert StartsAt(s, i, "entre") ==> s[i] == 'e' && s[i + 1] == 'n' by {
          if StartsAt(s, i, "entre") {
            assert s[i..i + 5][0] == s[i] && s[i..i + 5][1] == s[i + 1];
          }
        }
        assert s[i] == "cherchons "[i] by { assert s[0..10][i] == s[i]; }
        assert i == 2 ==> s[3] == 'r' by { assert s[0..10][3] == s[3]; }
      } else {
        Confined(s, 10, w, "entre", i);
        assert StartsAt(s, i, "entre") ==> Occurs("entre", w);
      }
    }
  }

  /** The announcement matches `cherchons?\s+(.+?)` at 0 with the search term as the group. */
  lemma AnnouncementMatch(s: string, w: string)
    requires SearchTerm(w) && StartsAt(s, 0, "cherchons ") && StartsAt(s, 10, w)
    requires StartsAt(s, 10 + |w|, " ") && StartsAt(s, 11 + |w|, "entre")
    ensures MatchAt(s, 0, Triggers[0]) == Some(Group(10, 10 + |w|))
  {
    var n := |w|;
    assert s[0..8] == "cherchon" && s[8] == 's' && s[9] == ' ' by {
      assert s[0..10][8] == s[8] && s[0..10][9] == s[9];
    }
    assert s[10] == w[0] by { assert s[10..10 + n][0] == s[10]; }
    SpanOfPiece(s, 9, " ", Whitespace);
    forall k | 10 <= k < 10 + n ensures s[k] != '\n' {
      assert s[10..10 + n][k - 10] == s[k];
    }
    forall e | 11 <= e < 10 + n ensures !QueryEndsAt(s, e) {
      NoEndInside(s, w, e);
    }
    assert s[10 + n] == ' ' by { assert s[10 + n..11 + n][0] == s[10 + n]; }
    StopAfterSpaces(s, 10 + n, 1);
    LazyGroupEndIs(s, 11, 10 + n);
  }

  /** The trigger loop finds the search term of an announcement. */
  lemma AnnouncementTrigger(s: string, w: string)
    requires SearchTerm(w) && StartsAt(s, 0, "cherchons ") && StartsAt(s, 10, w)
    requires StartsAt(s, 10 + |w|, " ") && StartsAt(s, 11 + |w|, "entre")
    ensures FirstTrigger(s, Triggers) == Some((0, Hit(0, Group(10, 10 + |w|))))
    ensures s[10..10 + |w|] == w
  {
    AnnouncementMatch(s, w);
    assert Search(s, Triggers[0]) == Some(Hit(0, Group(10, 10 + |w|)));
  }

  /** The budget search finds the bounds of an announcement. */
  lemma AnnouncementBudget(s: string, w: string, low: string, high: string)
    requires SearchTerm(w) && low != [] && AllDigits(low) && high != [] && AllDigits(high)
    requires StartsAt(s, 0, "cherchons ") && StartsAt(s, 10, w) && StartsAt(s, 10 + |w|, " ")
    requires 11 + |w| <= |s| && s[11 + |w|..] == "entre" + " " + low + " " + "et" + " " + high + []
    ensures BudgetSearch(s, 0) == Some(Budget(DigitsValue(low), DigitsValue(high)))
  {
    var p := 11 + |w|;
    NoBudgetBefore(s, w);
    BudgetSearchSkip(s, 0, p);
    BudgetOfPhrase(s, p, " ", low, " ", "et", " ", high, []);
    BudgetSearchFirst(s, p, p);
  }

  /** The format the assistant is asked to use reads back as the search term
      and the two bounds, whoever wrote the turn and whatever came before it;
      the bounds are not checked against each other. */
  lemma AnnouncementRoundTrip(history: seq<Turn>, w: string, low: string, high: string)
    requires history != [] && Lower(LastMessage(history)) == Announcement(w, low, high)
    requires SearchTerm(w) && low != [] && AllDigits(low) && high != [] && AllDigits(high)
    ensures ExtractSearchIntent(history) == Some(SearchIntent(w, DigitsValue(low), DigitsValue(high)))
  {
    AnnouncementIntent(Lower(LastMessage(history)), w, low, high);
  }

  /** The announcement read on the lowered message. */
  lemma AnnouncementIntent(s: string, w: string, low: string, high: string)
    requires s == Announcement(w, low, high)
    requires SearchTerm(w) && low != [] && AllDigits(low) && high != [] && AllDigits(high)
    ensures IntentOf(s) == Some(SearchIntent(w, DigitsValue(low), DigitsValue(high)))
  {
    AnnouncementParts(s, w, low, high);
    StripUnchanged(w);
    assert Strip(s[10..10 + |w|]) == w;
  }

  /** What the trigger loop and the budget search find in an announcement. */
  lemma AnnouncementParts(s: string, w: string, low: string, high: string)
    requires s == Announcement(w, low, high)
    requires SearchTerm(w) && low != [] && AllDigits(low) && high != [] && AllDigits(high)
    ensures FirstTrigger(s, Triggers) == Some((0, Hit(0, Group(10, 10 + |w|))))
    ensures s[10..10 + |w|] == w
    ensures BudgetSearch(s, 0) == Some(Budget(DigitsValue(low), DigitsValue(high)))
  {
    AnnouncementLayout(w, low, high, s);
    AnnouncementStart(s, w, low, high);
    AnnouncementTrigger(s, w);
    AnnouncementBudget(s, w, low, high);
  }

  /** "entre" starts right after the search term. */
  lemma AnnouncementStart(s: string, w: string, low: string, high: string)
    requires 11 + |w| <= |s| && s[11 + |w|..] == "entre" + " " + low + " " + "et" + " " + high + []
    ensures StartsAt(s, 11 + |w|, "entre")
  {
    Peel(s, 11 + |w|, "entre", " " + low + " " + "et" + " " + high + []);
  }

  /** "cherchons X entre 10 et 50" gives the query "x" and the bounds 10 and 50. */
  lemma CapitalisedAnnouncement(history: seq<Turn>)
    requires history != [] && LastMessage(history) == "cherchons X entre 10 et 50"
    ensures ExtractSearchIntent(history) == Some(SearchIntent("x", 10, 50))
  {
    assert Lower("cherchons X entre 10 et 50") == Announcement("x", "10", "50");
    assert DigitsValue("10") == 10 by { assert "10"[..1] == "1"; }
    assert DigitsValue("50") == 50 by { assert "50"[..1] == "5"; }
    assert !Occurs("entre", "x");
    AnnouncementRoundTrip(history, "x", "10", "50");
  }

  /** Accented capitals lower with the rest of the message, and the term
      keeps its inner space. */
  lemma AccentedAnnouncement(history: seq<Turn>)
    requires history != [] && LastMessage(history) == "Cherchons Écran 4K entre 100 et 300"
    ensures ExtractSearchIntent(history) == Some(SearchIntent("écran 4k", 100, 300))
  {
    AccentedLower();
    assert DigitsValue("100") == 100 by { assert "100"[..2] == "10"; assert "10"[..1] == "1"; }
    assert DigitsValue("300") == 300 by { assert "300"[..2] == "30"; assert "30"[..1] == "3"; }
    AccentedTerm();
    AnnouncementRoundTrip(history, "écran 4k", "100", "300");
  }

  /** "Cherchons Écran 4K entre 100 et 300" lowers to an announcement. */
  lemma AccentedLower()
    ensures Lower("Cherchons Écran 4K entre 100 et 300") == Announcement("écran 4k", "100", "300")
  {
    var a, b, c := "Cherchons ", "Écran 4K", " entre 100 et 300";
    assert a + b + c == "Cherchons Écran 4K entre 100 et 300";
    LowerAppend(a + b, c);
    LowerAppend(a, b);
    AccentedPieces();
    AccentedShape();
  }

  /** The lowered accented message, piece by piece, is an announcement. */
  lemma AccentedShape()
    ensures Announcement("écran 4k", "100", "300") == "cherchons " + "écran 4k" + " entre 100 et 300"
  {
  }

  /** The three pieces of the accented announcement, lowered. */
  lemma AccentedPieces()
    ensures Lower("Cherchons ") == "cherchons "
    ensures Lower("Écran 4K") == "écran 4k"
    ensures Lower(" entre 100 et 300") == " entre 100 et 300"
  {
  }

  /** "écran 4k" is a search term. */
  lemma AccentedTerm()
    ensures SearchTerm("écran 4k")
  {
    var w := "écran 4k";
    forall i: nat | i + 5 <= |w| ensures !StartsAt(w, i, "entre") {
      assert w[i..i + 5][0] == w[i];
    }
    forall k | 0 < k < |w| && IsSpace(w[k - 1]) ensures !StopWordAt(w, k) {
      assert k == 6;
      assert w[6..7][0] == w[6];
    }
  }

  /** A minimum above the maximum passes through as it is. */
  lemma BoundsNotOrdered(history: seq<Turn>)
    requires history != [] && LastMessage(history) == "cherchons tv entre 50 et 10"
    ensures ExtractSearchIntent(history) == Some(SearchIntent("tv", 50, 10))
  {
    assert Lower("cherchons tv entre 50 et 10") == Announcement("tv", "50", "10");
    assert DigitsValue("10") == 10 by { assert "10"[..1] == "1"; }
    assert DigitsValue("50") == 50 by { assert "50"[..1] == "5"; }
    assert !Occurs("entre", "tv");
    AnnouncementRoundTrip(history, "tv", "50", "10");
  }

  /** In "cherchons  " the first expression matches at 0 with the group " ". */
  lemma TrailingSpacesMatch(s: string)
    requires s == "cherchons  "
    ensures FirstTrigger(s, Triggers) == Some((0, Hit(0, Group(10, 11))))
  {
    SpanIs(s, 9, Whitespace, 2);
    assert LazyGroupEnd(s, 11) == Some(11);
    assert GroupAfterSpaces(s, 9, 2) == Some(Group(10, 11));
    assert MatchAt(s, 0, Triggers[0]) == Some(Group(10, 11));
    assert Search(s, Triggers[0]) == Some(Hit(0, Group(10, 11)));
  }

  /** "cherchons  " holds no budget phrase. */
  lemma TrailingSpacesBudget(s: string)
    requires s == "cherchons  "
    ensures BudgetSearch(s, 0).None?
  {
    forall i | 0 <= i <= |s| ensures BudgetAt(s, i).None? {
      if i + 5 <= |s| {
        assert s[i..i + 5][0] == s[i] && s[i..i + 5][1] == s[i + 1];
      }
    }
    BudgetSearchNone(s, 0);
  }

  /** A trigger followed by nothing but white space still announces a search:
      `\s+` gives one space back to the group, which strips to an empty query. */
  lemma EmptyQuery(history: seq<Turn>)
    requires history != [] && LastMessage(history) == "cherchons  "
    ensures ExtractSearchIntent(history) == Some(SearchIntent("", DefaultMinPrice, DefaultMaxPrice))
  {
    var s := Lower(LastMessage(history));
    assert s == "cherchons  ";
    TrailingSpacesMatch(s);
    TrailingSpacesBudget(s);
    assert Strip(s[10..11]) == [] by {
      assert s[10..11] == " ";
      SpanIs(" ", 0, Whitespace, 1);
    }
  }
}
