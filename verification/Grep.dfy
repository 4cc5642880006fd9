/** grep.c: the pattern matcher of Kernighan and Pike, against the language a pattern stands for. A C string
    is the sequence of its characters before the terminating NUL. */
module Grep {
  // ------------------------------------------------------------------ the language of a pattern

  /** `c` is one character that fits `c`, `c*` any number of them. */
  datatype Item = One(c: char) | Many(c: char)

  datatype Pattern = Pattern(items: seq<Item>, toEnd: bool)

  predicate Fits(c: char, x: char) {
    c == '.' || c == x
  }

  predicate InItem(it: Item, u: string) {
    match it
    case One(c) => |u| == 1 && Fits(c, u[0])
    case Many(c) => forall i :: 0 <= i < |u| ==> Fits(c, u[i])
  }

  function Flat(parts: seq<string>): string {
    if parts == [] then "" else parts[0] + Flat(parts[1..])
  }

  /** `parts` takes `w` apart, one part for each item. */
  ghost predicate Takes(items: seq<Item>, parts: seq<string>, w: string) {
    |parts| == |items| && Flat(parts) == w && forall i :: 0 <= i < |items| ==> InItem(items[i], parts[i])
  }

  ghost predicate InLanguage(items: seq<Item>, w: string) {
    exists parts :: Takes(items, parts, w)
  }

  /** Some beginning of `text` is in the language; all of it, for a pattern that ends in `$`. */
  ghost predicate BeginsWith(p: Pattern, text: string) {
    exists k :: 0 <= k <= |text| && InLanguage(p.items, text[..k]) && (p.toEnd ==> k == |text|)
  }

  /** What a pattern string says, apart from a leading `^`. A `*` counts only after a character, a `$` only
      at the end. */
  function Read(re: string): Pattern {
    if re == "" then Pattern([], false)
    else if |re| > 1 && re[1] == '*' then var p := Read(re[2..]); p.(items := [Many(re[0])] + p.items)
    else if re == "$" then Pattern([], true)
    else var p := Read(re[1..]); p.(items := [One(re[0])] + p.items)
  }

  ghost predicate FoundAt(p: Pattern, text: string, i: nat) {
    i <= |text| && BeginsWith(p, text[i..])
  }

  /** What `match` is for. */
  ghost predicate Matches(re: string, text: string) {
    if re != "" && re[0] == '^' then BeginsWith(Read(re[1..]), text)
    else exists i :: FoundAt(Read(re), text, i)
  }

  // ------------------------------------------------------------------ one item at a time

  lemma EmptyPattern(text: string, toEnd: bool)
    ensures BeginsWith(Pattern([], toEnd), text) <==> (toEnd ==> text == "")
  {
    assert Takes([], [], text[..0]);
    if toEnd && text == "" {
      assert text[..0] == text;
    }
  }

  /** Words of `it` followed by `items` are words of `it` and words of `items`, one after the other. */
  lemma LanguageSplit(it: Item, items: seq<Item>, w: string)
    ensures InLanguage([it] + items, w) <==>
      exists j :: 0 <= j <= |w| && InItem(it, w[..j]) && InLanguage(items, w[j..])
  {
    if InLanguage([it] + items, w) {
      var parts :| Takes([it] + items, parts, w);
      var j := |parts[0]|;
      assert w[..j] == parts[0] && w[j..] == Flat(parts[1..]);
      assert InItem(([it] + items)[0], parts[0]);
      forall i | 0 <= i < |items| ensures InItem(items[i], parts[1..][i]) {
        assert ([it] + items)[i + 1] == items[i];
      }
      assert Takes(items, parts[1..], w[j..]);
    }
    if j :| 0 <= j <= |w| && InItem(it, w[..j]) && InLanguage(items, w[j..]) {
      var parts :| Takes(items, parts, w[j..]);
      var all := [w[..j]] + parts;
      assert all[1..] == parts && Flat(all) == w[..j] + w[j..] == w;
      assert Takes([it] + items, all, w);
    }
  }

  /** The pattern `it` then `p` begins `text` if some word of `it` does, with `p` right after it. */
  lemma BeginsSplit(it: Item, p: Pattern, text: string)
    ensures BeginsWith(p.(items := [it] + p.items), text) <==>
            exists j :: 0 <= j <= |text| && InItem(it, text[..j]) && BeginsWith(p, text[j..])
  {
    if BeginsWith(p.(items := [it] + p.items), text) {
      var k :| 0 <= k <= |text| && InLanguage([it] + p.items, text[..k]) && (p.toEnd ==> k == |text|);
      LanguageSplit(it, p.items, text[..k]);
      var j :| 0 <= j <= k && InItem(it, text[..k][..j]) && InLanguage(p.items, text[..k][j..]);
      assert text[..k][..j] == text[..j] && text[..k][j..] == text[j..][..k - j];
      assert BeginsWith(p, text[j..]);
    }
    if j :| 0 <= j <= |text| && InItem(it, text[..j]) && BeginsWith(p, text[j..]) {
      var k :| 0 <= k <= |text[j..]| && InLanguage(p.items, text[j..][..k]) && (p.toEnd ==> k == |text[j..]|);
      var w := text[..j + k];
      assert w[..j] == text[..j] && w[j..] == text[j..][..k];
      LanguageSplit(it, p.items, w);
    }
  }

  lemma BeginsOne(c: char, p: Pattern, text: string)
    ensures BeginsWith(p.(items := [One(c)] + p.items), text) <==>
      text != "" && Fits(c, text[0]) && BeginsWith(p, text[1..])
  {
    BeginsSplit(One(c), p, text);
    if text != "" && Fits(c, text[0]) && BeginsWith(p, text[1..]) {
      assert InItem(One(c), text[..1]);
    }
  }

  lemma ManyMore(c: char, text: string, j: nat)
    requires j < |text|
    ensures InItem(Many(c), text[..j + 1]) <==> Fits(c, text[0]) && InItem(Many(c), text[1..][..j])
  {
    var u, v := text[..j + 1], text[1..][..j];
    assert forall i :: 0 < i < |u| ==> u[i] == v[i - 1];
    assert forall i :: 0 <= i < |v| ==> v[i] == u[i + 1];
    assert u[0] == text[0];
  }

  /** The search of `matchstar` may stop at the first character that does not fit. */
  lemma BeginsMany(c: char, p: Pattern, text: string)
    ensures BeginsWith(p.(items := [Many(c)] + p.items), text) <==>
            BeginsWith(p, text)
              || (text != "" && Fits(c, text[0]) && BeginsWith(p.(items := [Many(c)] + p.items), text[1..]))
  {
    var q := p.(items := [Many(c)] + p.items);
    BeginsSplit(Many(c), p, text);
    assert text[0..] == text && InItem(Many(c), text[..0]);
    if text != "" {
      BeginsSplit(Many(c), p, text[1..]);
      if BeginsWith(q, text) && !BeginsWith(p, text) {
        var j :| 0 <= j <= |text| && InItem(Many(c), text[..j]) && BeginsWith(p, text[j..]);
        ManyMore(c, text, j - 1);
        assert text[1..][j - 1..] == text[j..];
      }
      if Fits(c, text[0]) && BeginsWith(q, text[1..]) {
        var j :| 0 <= j <= |text[1..]| && InItem(Many(c), text[1..][..j]) && BeginsWith(p, text[1..][j..]);
        ManyMore(c, text, j);
        assert text[1..][j..] == text[j + 1..];
      }
    }
  }

  // ------------------------------------------------------------------ the code

  /** `match`. */
  method Match(re: string, text: string) returns (r: bool)
    ensures r <==> Matches(re, text)
  {
    if re != "" && re[0] == '^' {
      r := MatchHere(re[1..], text);
      return;
    }
    var i := 0;
    while true
      invariant i <= |text| && forall j :: 0 <= j < i ==> !FoundAt(Read(re), text, j)
      decreases |text| - i
    {
      r := MatchHere(re, text[i..]);
      if r {
        assert FoundAt(Read(re), text, i);
        return;
      }
      if i == |text| {
        return;
      }
      i := i + 1;
    }
  }

  /** `matchhere`. */
  method MatchHere(re: string, text: string) returns (r: bool)
    ensures r <==> BeginsWith(Read(re), text)
    decreases |re|, 0
  {
    if re == "" {
      EmptyPattern(text, false);
      return true;
    }
    if |re| > 1 && re[1] == '*' {
      r := MatchStar(re[0], re[2..], text);
      return;
    }
    if re == "$" {
      EmptyPattern(text, true);
      return text == "";
    }
    BeginsOne(re[0], Read(re[1..]), text);
    if text != "" && (re[0] == '.' || re[0] == text[0]) {
      r := MatchHere(re[1..], text[1..]);
      return;
    }
    r := false;
  }

  /** `matchstar`. */
  method MatchStar(c: char, re: string, text: string) returns (r: bool)
    ensures r <==> BeginsWith(Read(re).(items := [Many(c)] + Read(re).items), text)
    decreases |re|, 1
  {
    ghost var p := Read(re);
    ghost var q := p.(items := [Many(c)] + p.items);
    var i := 0;
    while true
      invariant i <= |text| && (BeginsWith(q, text) <==> BeginsWith(q, text[i..]))
      decreases |text| - i
    {
      r := MatchHere(re, text[i..]);
      BeginsMany(c, p, text[i..]);
      if r {
        return;
      }
      if i == |text| || !(text[i] == c || c == '.') {
        return;
      }
      assert text[i..][1..] == text[i + 1..];
      i := i + 1;
    }
  }
}
