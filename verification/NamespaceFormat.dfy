/**
 The text format of log namespaces (logutils/namespaces_tree.go:12-20, lvl_from_string.go): a regular
 expression, and the splitting that follows once it has matched.
 */
module NamespaceFormat {
  import opened Wrappers

  // ---------------------------------------------------------------------------
  // Regular expressions
  // ---------------------------------------------------------------------------

  datatype Regex =
    | Empty
    | OneOf(chars: set<char>)
    | Cat(first: Regex, second: Regex)
    | Alt(left: Regex, right: Regex)
    | Star(body: Regex)

  /** MatchString for an expression anchored at both ends. */
  predicate Matches(re: Regex, s: string)
    decreases re, |s|
  {
    match re
    case Empty => s == ""
    case OneOf(chars) => |s| == 1 && s[0] in chars
    case Cat(a, b) => exists k | 0 <= k <= |s| :: Matches(a, s[..k]) && Matches(b, s[k..])
    case Alt(a, b) => Matches(a, s) || Matches(b, s)
    case Star(a) => s == "" || exists k | 0 < k <= |s| :: Matches(a, s[..k]) && Matches(re, s[k..])
  }

  function Plus(re: Regex): Regex {
    Cat(re, Star(re))
  }

  function Word(w: string): Regex {
    if w == "" then Empty else Cat(OneOf({w[0]}), Word(w[1..]))
  }

  const NAME_CHARS: set<char> := set c: char | 'a' <= c <= 'z' || 'A' <= c <= 'Z' || '0' <= c <= '9' || c == '_' || c == '.'

  /** (w1|w2|...) */
  function AnyWord(ws: seq<string>): Regex
    requires ws != []
  {
    if |ws| == 1 then Word(ws[0]) else Alt(Word(ws[0]), AnyWord(ws[1..]))
  }

  const LEVEL_WORDS: seq<string> := ["debug", "info", "warn", "error"]

  /** [a-zA-Z0-9_\.]+:(debug|info|warn|error) */
  function Item(): Regex {
    Cat(Plus(OneOf(NAME_CHARS)), Cat(OneOf({':'}), AnyWord(LEVEL_WORDS)))
  }

  /** ^item(,item)*$ */
  function ListOf(item: Regex): Regex {
    Cat(item, Star(Cat(OneOf({','}), item)))
  }

  // ---------------------------------------------------------------------------
  // Splitting
  // ---------------------------------------------------------------------------

  /** strings.Split with a one-character separator. */
  function Split(s: string, sep: char): (parts: seq<string>)
    ensures parts != []
  {
    if s == "" then [""]
    else
      var rest := Split(s[1..], sep);
      if s[0] == sep then [""] + rest else [[s[0]] + rest[0]] + rest[1..]
  }

  /** Without the separator there is one part; with it, the first part ends there. */
  lemma {:induction false} SplitNone(s: string, sep: char)
    requires sep !in s
    ensures Split(s, sep) == [s]
  {
    if s != "" {
      SplitNone(s[1..], sep);
      assert [s[0]] + s[1..] == s;
    }
  }

  lemma {:induction false} SplitFirst(a: string, b: string, sep: char)
    requires sep !in a
    ensures Split(a + [sep] + b, sep) == [a] + Split(b, sep)
  {
    var s := a + [sep] + b;
    if a == "" {
      assert s[1..] == b;
    } else {
      SplitFirst(a[1..], b, sep);
      assert s[1..] == a[1..] + [sep] + b;
      assert [a[0]] + a[1..] == a;
    }
  }

  /** Either the separator does not occur, or it ends the first part. */
  lemma {:induction false} SplitCases(s: string, sep: char)
    ensures var head := Split(s, sep)[0];
            && sep !in head
            && if sep !in s then s == head && Split(s, sep) == [s]
               else |head| < |s| && s == head + [sep] + s[|head| + 1..] && Split(s, sep) == [head] + Split(s[|head| + 1..], sep)
  {
    if sep in s {
      if s[0] != sep {
        SplitCases(s[1..], sep);
        var head := Split(s[1..], sep)[0];
        assert Split(s, sep)[0] == [s[0]] + head;
        assert s[1..][|head| + 1..] == s[|head| + 2..];
      }
    } else {
      SplitNone(s, sep);
    }
  }

  lemma PairSplit(head: string, word: string, sep: char)
    requires sep !in head && sep !in word
    ensures Split(head + [sep] + word, sep) == [head, word]
  {
    SplitFirst(head, word, sep);
    SplitNone(word, sep);
  }

  lemma SplitPair(s: string, sep: char)
    requires |Split(s, sep)| == 2
    ensures var parts := Split(s, sep);
            s == parts[0] + [sep] + parts[1] && sep !in parts[0] && sep !in parts[1]
  {
    SplitCases(s, sep);
    var head := Split(s, sep)[0];
    var word := s[|head| + 1..];
    SplitCases(word, sep);
    assert Split(s, sep) == [head] + Split(word, sep);
    assert Split(word, sep) == [word];
  }

  // ---------------------------------------------------------------------------
  // Levels
  // ---------------------------------------------------------------------------

  type Level = int

  const TRACE: Level := -2
  const DEBUG: Level := -1
  const INFO: Level := 0
  const WARN: Level := 1
  const ERROR: Level := 2
  const DPANIC: Level := 3
  const INVALID: Level := 6

  function ToLower(s: string): string {
    seq(|s|, i requires 0 <= i < |s| => if 'A' <= s[i] <= 'Z' then s[i] - 'A' + 'a' else s[i])
  }

  /** The cases of the switch, in order. */
  const LEVEL_CASES: seq<(string, Level)> := [
    ("trace", TRACE), ("trce", TRACE), ("debug", DEBUG), ("dbug", DEBUG), ("info", INFO),
    ("warn", WARN), ("error", ERROR), ("eror", ERROR), ("crit", DPANIC)]

  function FindCase(word: string, cases: seq<(string, Level)>): Option<Level> {
    if cases == [] then None
    else if cases[0].0 == word then Some(cases[0].1)
    else FindCase(word, cases[1..])
  }

  function LvlFromString(s: string): Option<Level> {
    FindCase(ToLower(s), LEVEL_CASES)
  }

  lemma {:induction false} CaseFound(word: string, cases: seq<(string, Level)>, k: nat)
    requires k < |cases| && cases[k].0 == word
    ensures FindCase(word, cases).Some?
    ensures (forall i | 0 <= i < |cases| :: cases[i].1 < INVALID) ==> FindCase(word, cases).value < INVALID
  {
    if cases[0].0 != word { CaseFound(word, cases[1..], k - 1); }
  }

  lemma LevelWordsParse(w: string)
    requires w in LEVEL_WORDS
    ensures LvlFromString(w).Some? && LvlFromString(w).value < INVALID
    ensures ':' !in w && ',' !in w
  {
    assert ToLower(w) == w;
    var k := if w == "debug" then 2 else if w == "info" then 4 else if w == "warn" then 5 else 6;
    CaseFound(w, LEVEL_CASES, k);
  }

  // ---------------------------------------------------------------------------
  // What the format means
  // ---------------------------------------------------------------------------

  predicate NameOk(s: string) {
    s != "" && forall c | c in s :: c in NAME_CHARS
  }

  predicate TailOk(s: string) {
    s != "" && s[0] == ':' && s[1..] in LEVEL_WORDS
  }

  /** A pair splits into a non-empty name and one of the four level words. */
  predicate ItemOk(item: string) {
    var parts := Split(item, ':');
    |parts| == 2 && NameOk(parts[0]) && parts[1] in LEVEL_WORDS
  }

  predicate AllItemsOk(s: string) {
    var items := Split(s, ',');
    forall i | 0 <= i < |items| :: ItemOk(items[i])
  }

  lemma {:induction false} WordMatches(w: string, s: string)
    ensures Matches(Word(w), s) <==> s == w
  {
    if w != "" {
      forall k | 0 <= k <= |s| ensures Matches(OneOf({w[0]}), s[..k]) && Matches(Word(w[1..]), s[k..]) ==> s == w {
        WordMatches(w[1..], s[k..]);
        assert s == s[..k] + s[k..];
      }
      if s == w {
        WordMatches(w[1..], s[1..]);
        assert Matches(OneOf({w[0]}), s[..1]) && Matches(Word(w[1..]), s[1..]);
      }
    }
  }

  lemma {:induction false} AnyWordMatches(ws: seq<string>, s: string)
    requires ws != []
    ensures Matches(AnyWord(ws), s) <==> s in ws
  {
    WordMatches(ws[0], s);
    if |ws| > 1 { AnyWordMatches(ws[1..], s); }
  }

  lemma {:induction false} StarOfChars(cs: set<char>, s: string)
    ensures Matches(Star(OneOf(cs)), s) <==> forall c | c in s :: c in cs
  {
    if s != "" {
      StarOfChars(cs, s[1..]);
      assert s == [s[0]] + s[1..];
      if Matches(Star(OneOf(cs)), s) {
        var k :| 0 < k <= |s| && Matches(OneOf(cs), s[..k]) && Matches(Star(OneOf(cs)), s[k..]);
        assert k == 1 && s[..1][0] == s[0];
      }
      if forall c | c in s :: c in cs {
        assert s[..1] == [s[0]] && s[0] in s;
        assert forall c | c in s[1..] :: c in s;
        assert Matches(OneOf(cs), s[..1]) && Matches(Star(OneOf(cs)), s[1..]);
      }
    }
  }

  lemma NameMatches(s: string)
    ensures Matches(Plus(OneOf(NAME_CHARS)), s) <==> NameOk(s)
  {
    var re := OneOf(NAME_CHARS);
    if Matches(Plus(re), s) {
      var k :| 0 <= k <= |s| && Matches(re, s[..k]) && Matches(Star(re), s[k..]);
      StarOfChars(NAME_CHARS, s[k..]);
      assert s == s[..k] + s[k..] && s[..k] == [s[0]];
    }
    if s != "" && forall c | c in s :: c in NAME_CHARS {
      StarOfChars(NAME_CHARS, s[1..]);
      assert s[..1] == [s[0]] && s[0] in s;
      assert forall c | c in s[1..] :: c in s;
      assert Matches(re, s[..1]) && Matches(Star(re), s[1..]);
    }
  }

  /** A character followed by anything that matches re. */
  lemma CharThen(c: char, re: Regex, s: string)
    ensures Matches(Cat(OneOf({c}), re), s) <==> s != "" && s[0] == c && Matches(re, s[1..])
  {
    if Matches(Cat(OneOf({c}), re), s) {
      var k :| 0 <= k <= |s| && Matches(OneOf({c}), s[..k]) && Matches(re, s[k..]);
      assert k == 1 && s[..1][0] == s[0];
    }
    if s != "" && s[0] == c && Matches(re, s[1..]) {
      assert Matches(OneOf({c}), s[..1]) && Matches(re, s[1..]);
    }
  }

  lemma TailMatches(s: string)
    ensures Matches(Cat(OneOf({':'}), AnyWord(LEVEL_WORDS)), s) <==> TailOk(s)
  {
    CharThen(':', AnyWord(LEVEL_WORDS), s);
    if s != "" { AnyWordMatches(LEVEL_WORDS, s[1..]); }
  }

  lemma NameHasNoSeparators(s: string)
    requires NameOk(s)
    ensures ':' !in s && ',' !in s
  {
  }

  /** Where a pair is cut, for any expressions accepting names and tails. */
  lemma PairMatches(name: Regex, tail: Regex, s: string)
    requires forall x: string :: Matches(name, x) <==> NameOk(x)
    requires forall x: string :: Matches(tail, x) <==> TailOk(x)
    ensures Matches(Cat(name, tail), s) <==> ItemOk(s)
  {
    if Matches(Cat(name, tail), s) {
      var k :| 0 <= k <= |s| && Matches(name, s[..k]) && Matches(tail, s[k..]);
      CutIsItem(s, k);
    }
    if ItemOk(s) {
      var k := ItemIsCut(s);
      assert Matches(name, s[..k]) && Matches(tail, s[k..]);
    }
  }

  lemma CutIsItem(s: string, k: nat)
    requires k <= |s| && NameOk(s[..k]) && TailOk(s[k..])
    ensures ItemOk(s)
  {
    var head, word := s[..k], s[k..][1..];
    NameHasNoSeparators(head);
    LevelWordsParse(word);
    assert s == head + [':'] + word;
    PairSplit(head, word, ':');
  }

  lemma ItemIsCut(s: string) returns (k: nat)
    requires ItemOk(s)
    ensures k <= |s| && NameOk(s[..k]) && TailOk(s[k..])
  {
    SplitPair(s, ':');
    var parts := Split(s, ':');
    k := |parts[0]|;
    assert s[..k] == parts[0] && s[k..][1..] == parts[1];
  }

  /** One pair: the expression accepts exactly what splits well. */
  lemma ItemMatches(s: string)
    ensures Matches(Item(), s) <==> ItemOk(s)
  {
    var name, tail := Plus(OneOf(NAME_CHARS)), Cat(OneOf({':'}), AnyWord(LEVEL_WORDS));
    forall x: string ensures Matches(name, x) <==> NameOk(x) { NameMatches(x); }
    forall x: string ensures Matches(tail, x) <==> TailOk(x) { TailMatches(x); }
    PairMatches(name, tail, s);
  }

  lemma ItemHasNoComma(s: string)
    requires ItemOk(s)
    ensures ',' !in s
  {
    SplitPair(s, ':');
    var parts := Split(s, ':');
    NameHasNoSeparators(parts[0]);
    LevelWordsParse(parts[1]);
  }

  lemma PrependItem(a: string, b: string)
    requires ItemOk(a)
    ensures AllItemsOk(a + [','] + b) <==> AllItemsOk(b)
  {
    ItemHasNoComma(a);
    SplitFirst(a, b, ',');
    var items, rest := Split(a + [','] + b, ','), Split(b, ',');
    assert items == [a] + rest;
    forall i | 0 <= i < |rest| ensures items[i + 1] == rest[i] {}
  }

  lemma SingleItem(a: string)
    requires ItemOk(a)
    ensures AllItemsOk(a)
  {
    ItemHasNoComma(a);
    SplitNone(a, ',');
  }

  /** The rest of a list after its first pair: nothing, or a comma and more pairs. */
  predicate MoreOk(s: string) {
    s == "" || (s[0] == ',' && AllItemsOk(s[1..]))
  }

  lemma ListIsCut(t: string) returns (k: nat)
    requires AllItemsOk(t)
    ensures k <= |t| && ItemOk(t[..k]) && MoreOk(t[k..])
  {
    SplitCases(t, ',');
    var item := Split(t, ',')[0];
    assert ItemOk(item);
    k := |item|;
    assert t[..k] == item;
    if ',' in t {
      PrependItem(item, t[k + 1..]);
      assert t[k..][1..] == t[k + 1..];
    }
  }

  lemma CutIsList(s: string, k: nat)
    requires k <= |s| && ItemOk(s[..k]) && MoreOk(s[k..])
    ensures AllItemsOk(s)
  {
    var item, more := s[..k], s[k..];
    if more == "" {
      assert item == s;
      SingleItem(item);
    } else {
      PrependItem(item, more[1..]);
      assert s == item + [','] + more[1..];
    }
  }

  lemma {:induction false} StarOfItems(item: Regex, s: string)
    requires forall x: string :: Matches(item, x) <==> ItemOk(x)
    ensures Matches(Star(Cat(OneOf({','}), item)), s) <==> MoreOk(s)
    decreases |s|
  {
    var more := Cat(OneOf({','}), item);
    if s != "" {
      if Matches(Star(more), s) {
        var k :| 0 < k <= |s| && Matches(more, s[..k]) && Matches(Star(more), s[k..]);
        CharThen(',', item, s[..k]);
        StarOfItems(item, s[k..]);
        assert s[1..][..k - 1] == s[..k][1..] && s[1..][k - 1..] == s[k..];
        CutIsList(s[1..], k - 1);
      }
      if MoreOk(s) {
        var k := ListIsCut(s[1..]);
        assert s[1..][..k] == s[..k + 1][1..] && s[1..][k..] == s[k + 1..];
        CharThen(',', item, s[..k + 1]);
        StarOfItems(item, s[k + 1..]);
        assert Matches(more, s[..k + 1]) && Matches(Star(more), s[k + 1..]);
      }
    }
  }

  lemma ListMatches(item: Regex, s: string)
    requires forall x: string :: Matches(item, x) <==> ItemOk(x)
    ensures Matches(ListOf(item), s) <==> AllItemsOk(s)
  {
    var star := Star(Cat(OneOf({','}), item));
    if Matches(ListOf(item), s) {
      var k :| 0 <= k <= |s| && Matches(item, s[..k]) && Matches(star, s[k..]);
      StarOfItems(item, s[k..]);
      CutIsList(s, k);
    }
    if AllItemsOk(s) {
      var k := ListIsCut(s);
      StarOfItems(item, s[k..]);
      assert Matches(item, s[..k]) && Matches(star, s[k..]);
    }
  }

  /** namespacesRegex */
  predicate FormatOk(s: string) {
    Matches(ListOf(Item()), s)
  }

  /** The format accepts exactly the lists whose every pair splits well. */
  lemma FormatMeaning(s: string)
    ensures FormatOk(s) <==> AllItemsOk(s)
  {
    forall x: string ensures Matches(Item(), x) <==> ItemOk(x) { ItemMatches(x); }
    ListMatches(Item(), s);
  }

  /** An item as it is written: a name of letters, digits, underscores and dots, a colon, and one of four words. */
  ghost predicate WrittenAs(item: string, name: string, word: string) {
    && item == name + [':'] + word && name != ""
    && (forall c | c in name :: 'a' <= c <= 'z' || 'A' <= c <= 'Z' || '0' <= c <= '9' || c == '_' || c == '.')
    && (word == "debug" || word == "info" || word == "warn" || word == "error")
  }

  lemma WordIsListed(word: string)
    ensures word in LEVEL_WORDS <==> word == "debug" || word == "info" || word == "warn" || word == "error"
  {
    assert LEVEL_WORDS[0] == "debug" && LEVEL_WORDS[1] == "info" && LEVEL_WORDS[2] == "warn" && LEVEL_WORDS[3] == "error";
  }

  /** What the items of an accepted string look like. */
  lemma ItemMeaning(item: string)
    ensures ItemOk(item) <==> exists name, word :: WrittenAs(item, name, word)
  {
    if ItemOk(item) {
      var parts := Split(item, ':');
      SplitPair(item, ':');
      WordIsListed(parts[1]);
      assert WrittenAs(item, parts[0], parts[1]);
    }
    if name, word :| WrittenAs(item, name, word) {
      WordIsListed(word);
      LevelWordsParse(word);
      PairSplit(name, word, ':');
    }
  }
}
