/**
 Searching serialised approvals. A proposal stores its requested permission levels as compact JSON, and
 `get_proposal` looks an account up with `LIKE '%"actor":"account"%'`. The search is exact.
 */
module Approvals {
  import opened Common
  import opened Traces

  /** The characters of a printed EOS name; none of them means anything to JSON or to LIKE. */
  predicate IsName(s: string) {
    forall i :: 0 <= i < |s| ==> 'a' <= s[i] <= 'z' || '1' <= s[i] <= '5' || s[i] == '.'
  }

  const BEFORE_ACTOR := "{\"actor\":\""
  const BEFORE_PERMISSION := "\",\"permission\":\""

  function PrintLevel(l: PermissionLevel): string {
    BEFORE_ACTOR + l.actor + BEFORE_PERMISSION + l.permission + "\"}"
  }

  function PrintRest(ls: seq<PermissionLevel>): string {
    if ls == [] then "]"
    else PrintLevel(ls[0]) + if |ls| == 1 then "]" else "," + PrintRest(ls[1..])
  }

  /** The compact JSON of a list of permission levels. */
  function PrintLevels(ls: seq<PermissionLevel>): string {
    "[" + PrintRest(ls)
  }

  lemma {:induction false} PrintRestSnoc(ls: seq<PermissionLevel>, l: PermissionLevel)
    requires ls != []
    ensures PrintRest(ls) != "" && PrintRest(ls)[|PrintRest(ls)| - 1] == ']'
    ensures PrintRest(ls + [l]) == PrintRest(ls)[..|PrintRest(ls)| - 1] + ("," + PrintLevel(l) + "]")
  {
    hide PrintLevel;
    var rest := ls[1..];
    assert (ls + [l])[1..] == rest + [l] && (ls + [l])[0] == ls[0];
    if rest == [] {
      assert [l][1..] == [];
      assert PrintRest([l]) == PrintLevel(l) + "]";
      assert PrintRest(ls)[..|PrintRest(ls)| - 1] == PrintLevel(ls[0]);
      assert PrintLevel(ls[0]) + ("," + (PrintLevel(l) + "]")) == PrintLevel(ls[0]) + ("," + PrintLevel(l) + "]");
    } else {
      PrintRestSnoc(rest, l);
      var t, more := PrintRest(rest), "," + PrintLevel(l) + "]";
      assert PrintRest(ls) == PrintLevel(ls[0]) + ("," + t);
      assert PrintRest(ls)[..|PrintRest(ls)| - 1] == PrintLevel(ls[0]) + ("," + t[..|t| - 1]);
      assert PrintLevel(ls[0]) + ("," + (t[..|t| - 1] + more)) == PrintLevel(ls[0]) + ("," + t[..|t| - 1]) + more;
    }
  }

  /** The compact JSON, built level by level. */
  lemma PrintedLevels(ls: seq<PermissionLevel>, l: PermissionLevel)
    ensures PrintLevel(l) == "{\"actor\":\"" + l.actor + "\",\"permission\":\"" + l.permission + "\"}"
    ensures PrintLevels([]) == "[]" && PrintLevels([l]) == "[" + (PrintLevel(l) + "]")
    ensures ls != [] ==>
              PrintLevels(ls + [l]) == PrintLevels(ls)[..|PrintLevels(ls)| - 1] + ("," + PrintLevel(l) + "]")
  {
    assert PrintLevel(l) == "{\"actor\":\"" + l.actor + "\",\"permission\":\"" + l.permission + "\"}";
    hide PrintLevel;
    assert [l][1..] == [];
    if ls != [] {
      PrintRestSnoc(ls, l);
      var t, more := PrintRest(ls), "," + PrintLevel(l) + "]";
      assert ("[" + t)[..|t|] == "[" + t[..|t| - 1];
      Associates("[", t[..|t| - 1], more);
    }
  }

  /** The text `get_proposal` searches for. */
  function ActorText(account: Name): string {
    "\"actor\":\"" + account + "\""
  }

  predicate OccursAt(text: string, pat: string, i: nat) {
    i <= |text| && pat <= text[i..]
  }

  ghost predicate Contains(text: string, pat: string) {
    exists i :: OccursAt(text, pat, i)
  }

  ghost predicate ValidLevels(ls: seq<PermissionLevel>) {
    forall i :: 0 <= i < |ls| ==> IsName(ls[i].actor) && IsName(ls[i].permission)
  }

  // ---------------------------------------------------------------------------------------------
  // LIKE
  // ---------------------------------------------------------------------------------------------

  /** The SQL LIKE operator: `%` stands for any text, `_` for one character, a backslash escapes. */
  predicate Like(pat: string, text: string)
    decreases |pat| + |text|
  {
    if pat == "" then text == ""
    else if pat[0] == '%' then Like(pat[1..], text) || (text != "" && Like(pat, text[1..]))
    else if pat[0] == '\\' && |pat| > 1 then text != "" && text[0] == pat[1] && Like(pat[2..], text[1..])
    else text != "" && (pat[0] == '_' || text[0] == pat[0]) && Like(pat[1..], text[1..])
  }

  predicate Literal(pat: string) {
    forall i :: 0 <= i < |pat| ==> pat[i] != '%' && pat[i] != '_' && pat[i] != '\\'
  }

  /** Without percent signs and escapes a pattern is matched place by place, an underscore by any character. */
  lemma {:induction false} LikeByPlaces(pat: string, text: string)
    requires forall i :: 0 <= i < |pat| ==> pat[i] != '%' && pat[i] != '\\'
    ensures Like(pat, text) <==> |pat| == |text| && forall i :: 0 <= i < |pat| ==> pat[i] == '_' || pat[i] == text[i]
  {
    if pat != "" && text != "" {
      var p, t := pat[1..], text[1..];
      LikeByPlaces(p, t);
      assert forall i :: 0 <= i < |p| ==> p[i] == pat[i + 1];
      assert forall i :: 0 <= i < |t| ==> t[i] == text[i + 1];
      assert forall i :: 0 < i < |pat| ==> pat[i] == p[i - 1];
    }
  }

  lemma {:induction false} PercentMatchesAll(text: string)
    ensures Like("%", text)
  {
    if text != "" {
      PercentMatchesAll(text[1..]);
    } else {
      assert "%"[1..] == "";
    }
  }

  lemma {:induction false} LikePrefix(pat: string, text: string)
    requires Literal(pat)
    ensures Like(pat + "%", text) <==> pat <= text
  {
    var full := pat + "%";
    if pat == "" {
      assert full == "%";
      PercentMatchesAll(text);
    } else if text != "" {
      assert full[1..] == pat[1..] + "%" && full[0] == pat[0];
      LikePrefix(pat[1..], text[1..]);
      assert pat <= text <==> pat[0] == text[0] && pat[1..] <= text[1..] by {
        assert pat == [pat[0]] + pat[1..] && text == [text[0]] + text[1..];
      }
    }
  }

  /** A literal pattern between two percent signs is a substring search. */
  lemma {:induction false} LikeIsContains(pat: string, text: string)
    requires Literal(pat)
    ensures Like("%" + (pat + "%"), text) <==> Contains(text, pat)
    decreases |text|
  {
    var full := "%" + (pat + "%");
    assert full[1..] == pat + "%";
    LikePrefix(pat, text);
    if pat <= text {
      assert text[0..] == text;
      assert OccursAt(text, pat, 0);
    }
    if text != "" {
      LikeIsContains(pat, text[1..]);
      if i: nat :| OccursAt(text[1..], pat, i) {
        assert text[1..][i..] == text[i + 1..];
        assert OccursAt(text, pat, i + 1);
      }
      if i: nat :| OccursAt(text, pat, i) {
        if i > 0 {
          assert text[1..][i - 1..] == text[i..];
          assert OccursAt(text[1..], pat, i - 1);
        } else {
          assert text[0..] == text;
        }
      }
    } else {
      assert forall i: nat :: OccursAt(text, pat, i) ==> text[i..] == text;
    }
  }

  // ---------------------------------------------------------------------------------------------
  // Where the actor text can occur
  // ---------------------------------------------------------------------------------------------

  predicate HasActor(ls: seq<PermissionLevel>, account: Name) {
    exists i :: 0 <= i < |ls| && ls[i].actor == account
  }

  /** The characters of one printed level in front of `rest`. */
  lemma Layout(l: PermissionLevel, rest: string, t: string)
    requires t == PrintLevel(l) + rest
    ensures |t| == 28 + |l.actor| + |l.permission| + |rest|
    ensures t[..10] == BEFORE_ACTOR
    ensures t[10..10 + |l.actor|] == l.actor
    ensures t[10 + |l.actor|..26 + |l.actor|] == BEFORE_PERMISSION
    ensures t[26 + |l.actor|..26 + |l.actor| + |l.permission|] == l.permission
    ensures t[26 + |l.actor| + |l.permission|..28 + |l.actor| + |l.permission|] == "\"}"
    ensures t[28 + |l.actor| + |l.permission|..] == rest
  {
    assert |BEFORE_ACTOR| == 10 && |BEFORE_PERMISSION| == 16;
  }

  /** In one printed level a quote is followed by a colon only after the two field names. */
  lemma QuoteColon(l: PermissionLevel, rest: string, t: string, i: nat)
    requires t == PrintLevel(l) + rest && IsName(l.actor) && IsName(l.permission)
    requires i + 1 < |t| && i < 28 + |l.actor| + |l.permission|
    ensures t[i] == '\"' && t[i + 1] == ':' ==> i == 7 || i == 23 + |l.actor|
  {
    Layout(l, rest, t);
    hide PrintLevel;
    var a, p := |l.actor|, |l.permission|;
    if i < 10 {
      assert t[i] == BEFORE_ACTOR[i];
      if i == 9 {
        assert t[10] == if a > 0 then l.actor[0] else BEFORE_PERMISSION[0];
      } else {
        assert t[i + 1] == BEFORE_ACTOR[i + 1];
      }
    } else if i < 10 + a {
      assert t[i] == l.actor[i - 10];
    } else if i < 26 + a {
      assert t[i] == BEFORE_PERMISSION[i - 10 - a];
      if i == 25 + a {
        assert t[26 + a] == if p > 0 then l.permission[0] else '\"';
      } else {
        assert t[i + 1] == BEFORE_PERMISSION[i - 9 - a];
      }
    } else if i < 26 + a + p {
      assert t[i] == l.permission[i - 26 - a];
    } else {
      assert t[26 + a + p] == '\"' && t[27 + a + p] == '}';
    }
  }

  /** The shape `"....."` followed by a colon, with five characters in the quotes, the first an `a`. */
  predicate QuotedA(t: string, i: nat) {
    && i + 7 < |t|
    && t[i] == '\"' && t[i + 1] == 'a' && t[i + 6] == '\"' && t[i + 7] == ':'
    && t[i + 2] != '\"' && t[i + 3] != '\"' && t[i + 4] != '\"' && t[i + 5] != '\"'
  }

  /** In one printed level only the field name `actor` has that shape, whatever its two names are. */
  lemma OnlyFieldName(l: PermissionLevel, rest: string, t: string, i: nat)
    requires t == PrintLevel(l) + rest && IsName(l.actor) && IsName(l.permission)
    requires i < 28 + |l.actor| + |l.permission|
    ensures QuotedA(t, i) ==> i == 1
  {
    Layout(l, rest, t);
    var a, p := |l.actor|, |l.permission|;
    if i + 7 < |t| {
      if i + 6 < 28 + a + p {
        QuoteColon(l, rest, t, i + 6);
        assert t[17 + a] == BEFORE_PERMISSION[7];
      } else {
        assert t[26 + a + p] == '\"' && t[27 + a + p] == '}';
      }
    }
  }

  lemma ActorTextIsQuotedA(t: string, account: Name, i: nat)
    requires OccursAt(t, ActorText(account), i)
    ensures QuotedA(t, i)
  {
    var pat := ActorText(account);
    assert forall j :: 0 <= j < |pat| ==> t[i + j] == pat[j];
    assert pat[..9] == "\"actor\":\"";
    assert forall j :: 0 <= j < 9 ==> pat[j] == pat[..9][j];
  }

  /** The position of the first quote. */
  function FirstQuote(t: string): (i: nat)
    ensures i <= |t|
    ensures i < |t| ==> t[i] == '\"'
    ensures forall j :: 0 <= j < i ==> t[j] != '\"'
  {
    if t == "" then 0 else if t[0] == '\"' then 0 else 1 + FirstQuote(t[1..])
  }

  lemma NameEndsAtFirstQuote(x: string, t: string)
    requires IsName(x) && x + "\"" <= t
    ensures FirstQuote(t) == |x| && t[..|x|] == x
  {
    assert t[|x|] == (x + "\"")[|x|];
    assert forall j :: 0 <= j < |x| ==> t[j] == (x + "\"")[j] == x[j];
  }

  /** Inside one printed level the text can only occur at its actor field. */
  lemma OccursInLevel(l: PermissionLevel, rest: string, t: string, account: Name, i: nat)
    requires t == PrintLevel(l) + rest && IsName(l.actor) && IsName(l.permission) && IsName(account)
    requires OccursAt(t, ActorText(account), i) && i < 28 + |l.actor| + |l.permission|
    ensures l.actor == account && i == 1
  {
    ActorTextIsQuotedA(t, account, i);
    OnlyFieldName(l, rest, t, i);
    Layout(l, rest, t);
    var pat := ActorText(account);
    assert pat[9..] == account + "\"";
    assert t[1..][9..] == t[10..];
    assert account + "\"" <= t[10..];
    assert t[10 + |l.actor|] == BEFORE_PERMISSION[0];
    assert l.actor + "\"" <= t[10..];
    NameEndsAtFirstQuote(l.actor, t[10..]);
    NameEndsAtFirstQuote(account, t[10..]);
  }

  /** Text that starts with a quote and occurs behind the first level occurs behind its comma too. */
  lemma OccursAfter(t: string, rest: string, pat: string, len: nat, i: nat)
    requires len <= i && len < |t| && t[len..] == rest && pat != "" && pat[0] == '\"' && OccursAt(t, pat, i)
    requires rest[0] != '\"'
    ensures i > len && OccursAt(rest[1..], pat, i - len - 1)
  {
    assert t[i] == t[i..][0] == pat[0];
    assert t[i..] == t[len..][i - len..];
    assert rest[1..][i - len - 1..] == rest[i - len..];
  }

  lemma OccursHereOrLater(l: PermissionLevel, rest: string, t: string, account: Name, i: nat)
    requires t == PrintLevel(l) + rest && IsName(l.actor) && IsName(l.permission) && IsName(account)
    requires rest != "" && rest[0] != '\"' && OccursAt(t, ActorText(account), i)
    ensures l.actor == account || exists k: nat :: OccursAt(rest[1..], ActorText(account), k)
  {
    var len := 28 + |l.actor| + |l.permission|;
    Layout(l, rest, t);
    if i < len {
      OccursInLevel(l, rest, t, account, i);
    } else {
      OccursAfter(t, rest, ActorText(account), len, i);
    }
  }

  lemma NotInShortText(t: string, account: Name, i: nat)
    requires |t| < 10
    ensures !OccursAt(t, ActorText(account), i)
  {
  }

  /** The text of the later levels. */
  function Behind(ls: seq<PermissionLevel>): string
    requires ls != []
  {
    if |ls| == 1 then "]" else "," + PrintRest(ls[1..])
  }

  lemma {:induction false} OccursOnlyAtActors(ls: seq<PermissionLevel>, account: Name, i: nat)
    requires ValidLevels(ls) && IsName(account)
    requires OccursAt(PrintRest(ls), ActorText(account), i)
    ensures HasActor(ls, account)
  {
    hide IsName, PrintLevel, OccursAt;
    if ls == [] {
      NotInShortText("]", account, i);
    } else {
      var rest := Behind(ls);
      OccursHereOrLater(ls[0], rest, PrintRest(ls), account, i);
      if ls[0].actor != account {
        var k: nat :| OccursAt(rest[1..], ActorText(account), k);
        if |ls| == 1 {
          NotInShortText(rest[1..], account, k);
        } else {
          OccursOnlyAtActors(ls[1..], account, k);
          var j :| 0 <= j < |ls[1..]| && ls[1..][j].actor == account;
          assert ls[j + 1].actor == account;
        }
      }
    }
  }

  lemma Regroup(a: string, b: string, c: string, d: string, e: string, f: string, g: string, h: string)
    ensures a + b + c + (d + e) + f + g + h == a + (b + c + d + (e + f + g + h))
  {
  }

  lemma LevelShowsActor(l: PermissionLevel, rest: string, t: string)
    requires t == PrintLevel(l) + rest
    ensures OccursAt(t, ActorText(l.actor), 1)
  {
    var colon := BEFORE_PERMISSION[1..];
    var behind := colon + l.permission + "\"}" + rest;
    assert "{" + "\"actor\":\"" == BEFORE_ACTOR;
    assert "\"" + colon == BEFORE_PERMISSION;
    Regroup("{", "\"actor\":\"", l.actor, "\"", colon, l.permission, "\"}", rest);
    assert t[1..] == ActorText(l.actor) + behind;
  }

  /** What occurs behind the comma of a level occurs in the whole text. */
  lemma OccursLater(t: string, rest: string, pat: string, len: nat, k: nat)
    requires len < |t| && t[len..] == rest && OccursAt(rest[1..], pat, k)
    ensures OccursAt(t, pat, len + 1 + k)
  {
    assert t[len + 1 + k..] == rest[1..][k..];
  }

  lemma LevelThenRest(ls: seq<PermissionLevel>)
    requires |ls| > 1
    ensures var t, len := PrintRest(ls), 28 + |ls[0].actor| + |ls[0].permission|;
            len < |t| && t[len..] == Behind(ls) && Behind(ls)[1..] == PrintRest(ls[1..])
  {
    Layout(ls[0], Behind(ls), PrintRest(ls));
  }

  lemma {:induction false} ActorsOccur(ls: seq<PermissionLevel>, j: nat) returns (i: nat)
    requires j < |ls|
    ensures OccursAt(PrintRest(ls), ActorText(ls[j].actor), i)
  {
    hide OccursAt, PrintLevel, ActorText;
    if j == 0 {
      i := 1;
      LevelShowsActor(ls[0], Behind(ls), PrintRest(ls));
    } else {
      hide PrintRest, Behind;
      var k := ActorsOccur(ls[1..], j - 1);
      var len := 28 + |ls[0].actor| + |ls[0].permission|;
      LevelThenRest(ls);
      OccursLater(PrintRest(ls), Behind(ls), ActorText(ls[j].actor), len, k);
      i := len + 1 + k;
    }
  }

  /** The SQL search finds exactly the proposals that ask for the account's approval, even when a
      permission is itself called `actor`. */
  lemma SearchIsExact(ls: seq<PermissionLevel>, account: Name)
    requires ValidLevels(ls) && IsName(account)
    ensures Like("%" + (ActorText(account) + "%"), PrintLevels(ls)) <==> HasActor(ls, account)
  {
    hide Like, OccursAt, ActorText, PrintRest, IsName;
    var text, pat := PrintLevels(ls), ActorText(account);
    PatternIsLiteral(account);
    LikeIsContains(pat, text);
    if i: nat :| OccursAt(text, pat, i) {
      BehindBracket(PrintRest(ls), account, i);
      OccursOnlyAtActors(ls, account, i - 1);
    }
    if j :| 0 <= j < |ls| && ls[j].actor == account {
      var i := ActorsOccur(ls, j);
      assert text[0..] == text && text[1..] == PrintRest(ls);
      OccursLater(text, text, pat, 0, i);
    }
  }

  lemma PatternIsLiteral(account: Name)
    requires IsName(account)
    ensures Literal(ActorText(account))
  {
  }

  /** The text does not occur at the opening bracket. */
  lemma BehindBracket(rest: string, account: Name, i: nat)
    requires OccursAt("[" + rest, ActorText(account), i)
    ensures i > 0 && OccursAt(rest, ActorText(account), i - 1)
  {
    var text, pat := "[" + rest, ActorText(account);
    assert text[i] == text[i..][0] == pat[0];
    assert text[1..] == rest && text[1..][i - 1..] == text[i..];
  }
}
