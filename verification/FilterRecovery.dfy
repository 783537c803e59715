/** Writing a filter as text and parsing it back. */
module FilterRecovery {
  import opened Wrappers
  import opened GoStrings
  import opened Filters

  /** One written field: a list of values, or one label. */
  datatype Clause = ListOf(component: Component, values: seq<string>) | LabelIs(key: string, value: string)

  function Word(c: Component): string {
    match c
    case Cluster => "cluster"
    case Namespace => "namespace"
    case ControllerName => "controllerName"
    case ControllerKind => "controllerKind"
    case Pod => "pod"
  }

  /** The values after the opening quote: a","b","c" */
  function Quoted(values: seq<string>): string {
    if values == [] then "\""
    else if |values| == 1 then values[0] + "\"" else values[0] + "\"" + ([','] + ("\"" + Quoted(values[1..])))
  }

  function Key(x: Clause): string {
    match x
    case ListOf(c, _) => Word(c)
    case LabelIs(key, _) => "label[" + key + "]"
  }

  function Values(x: Clause): string {
    match x
    case ListOf(_, values) => Quoted(values)
    case LabelIs(_, value) => value + "\""
  }

  /** key:"a","b" */
  function ClauseText(x: Clause): string {
    Key(x) + ":\"" + Values(x)
  }

  /** The clauses joined by plus signs. */
  function Text(xs: seq<Clause>): string {
    if xs == [] then ""
    else ClauseText(xs[0]) + (if |xs| == 1 then "" else "+" + Text(xs[1..]))
  }

  const DELIMITERS := {'"', ',', ':', '[', SEPARATOR}

  /** No field begins in it. */
  predicate Unmarked(s: string) {
    forall c :: c in s ==> c !in {':', '[', SEPARATOR}
  }

  predicate Plain(s: string) {
    forall c :: c in s ==> c !in DELIMITERS
  }

  /**
   Values are free of delimiters, where a label's key and value, which are never cut at commas, may hold
   commas; the first value, not protected by a quote, does not start with a space or a plus sign.
   */
  predicate WellWritten(x: Clause) {
    match x
    case ListOf(_, values) =>
      && values != [] && (forall v :: v in values ==> Plain(v))
      && (values[0] != "" ==> values[0][0] !in {' ', '+'})
    case LabelIs(key, value) => Unmarked(key) && Unmarked(value) && '"' !in value && (value != "" ==> value[0] != '+')
  }

  /** The clauses write down the filter: its nonempty components and nothing else, the cluster, if any, first. */
  ghost predicate Writes(xs: seq<Clause>, f: Content) {
    && (forall i :: 0 <= i < |xs| ==> WellWritten(xs[i]) && SaysOf(xs[i], f))
    && ClusterFirst(xs)
    && (forall c :: f.Get(c) != [] ==> ListOf(c, f.Get(c)) in xs)
    && (forall k :: k in f.labels ==> exists v :: LabelIs(k, v) in xs)
  }

  predicate ClusterFirst(xs: seq<Clause>) {
    forall i :: 0 < i < |xs| ==> !IsCluster(xs[i])
  }

  predicate IsCluster(x: Clause) {
    x.ListOf? && x.component == Cluster
  }

  predicate SaysOf(x: Clause, f: Content) {
    match x
    case ListOf(c, values) => f.Get(c) == values
    case LabelIs(key, value) => f.labels == map[key := [value]]
  }

  // ---------------------------------------------------------------------------------------
  // Replacing
  // ---------------------------------------------------------------------------------------

  /** No occurrence of p starts in a, so a stays as it is. */
  lemma {:induction false} ReplaceSkips(a: string, b: string, p: string, r: string)
    requires p != "" && forall i :: 0 <= i < |a| ==> !(p <= a[i..] + b)
    ensures Replace(a + b, p, r) == a + Replace(b, p, r)
  {
    if a == "" {
      assert a + b == b;
    } else {
      assert a[0..] + b == a + b && (a + b)[1..] == a[1..] + b;
      forall i | 0 <= i < |a[1..]| ensures !(p <= a[1..][i..] + b) {
        assert a[1..][i..] == a[i + 1..];
      }
      ReplaceSkips(a[1..], b, p, r);
    }
  }

  /** The prefix ends in a character that a lacks, and cannot go on beyond the last character of a. */
  lemma NoneStarts(a: string, b: string, p: string)
    requires p != "" && p[|p| - 1] !in a && (a != "" ==> a[|a| - 1] !in p)
    ensures forall i :: 0 <= i < |a| ==> !(p <= a[i..] + b)
  {
    forall i | 0 <= i < |a| ensures !(p <= a[i..] + b) {
      var s := a[i..] + b;
      assert s[|a| - 1 - i] == a[|a| - 1];
      if |p| <= |a| - i {
        assert s[|p| - 1] == a[i + |p| - 1];
      }
    }
  }

  lemma WordEnds(word: string, b: string, p: string)
    requires ':' !in p && ':' !in word && p + ":" <= word + ":" + b
    ensures p == word
  {
    var s := word + ":" + b;
    assert s[|p|] == (p + ":")[|p|] == ':' && s[|word|] == ':';
    assert forall j :: 0 <= j < |p| ==> s[j] == (p + ":")[j] == p[j];
    assert forall j :: 0 <= j < |word| ==> s[j] == word[j];
    assert |p| == |word|;
    assert p == s[..|p|] == word;
  }

  /** A prefix "p:" starts nowhere in a text "word:" whose word does not end in p. */
  lemma NoneInWord(word: string, b: string, p: string)
    requires p != "" && ':' !in p && ':' !in word && !HasSuffix(word, p)
    ensures forall i :: 0 <= i < |word + ":"| ==> !(p + ":" <= (word + ":")[i..] + b)
  {
    forall i | 0 <= i < |word + ":"| ensures !(p + ":" <= (word + ":")[i..] + b) {
      assert (word + ":")[i..] == word[i..] + ":";
      if p + ":" <= word[i..] + ":" + b {
        WordEnds(word[i..], b, p);
        assert false;
      }
    }
  }

  lemma ReplaceAtStart(b: string, p: string, r: string)
    requires p != ""
    ensures Replace(p + b, p, r) == r + Replace(b, p, r)
  {
    assert (p + b)[|p|..] == b;
  }

  // ---------------------------------------------------------------------------------------
  // Marking the fields
  // ---------------------------------------------------------------------------------------

  /** The prefix that a clause's text begins with; the cluster's is not looked for. */
  function PrefixOf(x: Clause): string {
    match x
    case ListOf(c, _) => Word(c) + ":"
    case LabelIs(_, _) => "label["
  }

  /** The rest of a clause's text, up to the character before its values. */
  function Tail(x: Clause): string {
    match x
    case ListOf(_, _) => "\""
    case LabelIs(key, _) => key + "]:\""
  }

  lemma {:induction false} QuotedChars(values: seq<string>)
    requires values != [] && forall i :: 0 <= i < |values| ==> Plain(values[i])
    ensures ':' !in Quoted(values) && '[' !in Quoted(values) && SEPARATOR !in Quoted(values)
    ensures Quoted(values) != "" && Quoted(values)[|Quoted(values)| - 1] == '"'
  {
    assert Plain(values[0]);
    if |values| > 1 {
      QuotedChars(values[1..]);
    }
  }

  lemma ValuesChars(x: Clause)
    requires WellWritten(x)
    ensures ':' !in Values(x) && '[' !in Values(x) && SEPARATOR !in Values(x)
    ensures Values(x) != "" && Values(x)[|Values(x)| - 1] == '"'
  {
    match x
    case ListOf(_, values) =>
      forall i | 0 <= i < |values| ensures Plain(values[i]) {
        assert values[i] in values;
      }
      QuotedChars(values);
    case LabelIs(_, value) =>
  }

  lemma TextParts(x: Clause)
    requires WellWritten(x)
    ensures ClauseText(x) == PrefixOf(x) + Tail(x) + Values(x)
  {
  }

  /** Replacing a prefix in a clause's text marks it if it begins with that prefix, and nothing else. */
  lemma ReplaceInClause(x: Clause, end: string, b: string, n: nat)
    requires WellWritten(x) && n < |PREFIXES| && end in {"", "+"} && (end == "" ==> b == "")
    ensures var p, r := PREFIXES[n], [SEPARATOR] + PREFIXES[n];
      Replace(ClauseText(x) + end + b, p, r) == Mark(x, n) + (ClauseText(x) + end + Replace(b, p, r))
  {
    hide PrefixOf, Tail, Values, ClauseText, Replace, WellWritten, Mark;
    var p, r := PREFIXES[n], [SEPARATOR] + PREFIXES[n];
    TextParts(x);
    ReplaceInBody(x, end, b, n);
    ReplaceInHead(x, Tail(x) + (Values(x) + end + b), n);
    Regroup(PrefixOf(x), Tail(x), Values(x), end, b);
    Regroup(PrefixOf(x), Tail(x), Values(x), end, Replace(b, p, r));
  }

  lemma Regroup(a: string, b: string, c: string, d: string, e: string)
    ensures a + b + c + d + e == a + (b + (c + d + e))
  {
  }

  /** What replacing prefix n puts before a clause. */
  function Mark(x: Clause, n: nat): string
    requires n < |PREFIXES|
  {
    if PREFIXES[n] == PrefixOf(x) then [SEPARATOR] else ""
  }

  lemma ReplaceInHead(x: Clause, rest: string, n: nat)
    requires n < |PREFIXES|
    ensures var p, r := PREFIXES[n], [SEPARATOR] + PREFIXES[n];
      Replace(PrefixOf(x) + rest, p, r) == Mark(x, n) + (PrefixOf(x) + Replace(rest, p, r))
  {
    hide Replace, PrefixOf;
    var p, r := PREFIXES[n], [SEPARATOR] + PREFIXES[n];
    if p == PrefixOf(x) {
      ReplaceAtStart(rest, p, r);
      assert r + Replace(rest, p, r) == [SEPARATOR] + (p + Replace(rest, p, r));
    } else {
      NoneInPrefix(x, rest, n);
      ReplaceSkips(PrefixOf(x), rest, p, r);
    }
  }

  lemma NoneInPrefix(x: Clause, b: string, n: nat)
    requires n < |PREFIXES| && PREFIXES[n] != PrefixOf(x)
    ensures forall i :: 0 <= i < |PrefixOf(x)| ==> !(PREFIXES[n] <= PrefixOf(x)[i..] + b)
  {
    if x.LabelIs? {
      NoneInLabel(b, n);
    } else if n == 4 {
      NoLabelInWord(x.component, b);
    } else {
      hide HasSuffix, Word;
      PrefixWord(n);
      NotSuffix(x.component, PrefixComponent(n));
      WordChars(x.component);
      WordChars(PrefixComponent(n));
      NoneInWord(Word(x.component), b, Word(PrefixComponent(n)));
    }
  }

  lemma NoneInLabel(b: string, n: nat)
    requires n < 4
    ensures forall i :: 0 <= i < |"label["| ==> !(PREFIXES[n] <= "label["[i..] + b)
  {
    PrefixWord(n);
    WordChars(PrefixComponent(n));
    NoneStarts("label[", b, PREFIXES[n]);
  }

  lemma NoLabelInWord(c: Component, b: string)
    ensures forall i :: 0 <= i < |Word(c) + ":"| ==> !("label[" <= (Word(c) + ":")[i..] + b)
  {
    hide Word;
    WordChars(c);
    NoneStarts(Word(c) + ":", b, "label[");
  }

  function PrefixComponent(n: nat): Component
    requires n < 4
  {
    if n == 0 then Namespace else if n == 1 then ControllerName else if n == 2 then ControllerKind else Pod
  }

  lemma PrefixWord(n: nat)
    requires n < 4
    ensures PREFIXES[n] == Word(PrefixComponent(n)) + ":"
  {
  }

  lemma WordChars(c: Component)
    ensures Word(c) != "" && ':' !in Word(c) && '[' !in Word(c)
  {
  }

  /** The last two characters tell the words apart. */
  function Ending(c: Component): (char, char) {
    match c
    case Cluster => ('e', 'r')
    case Namespace => ('c', 'e')
    case ControllerName => ('m', 'e')
    case ControllerKind => ('n', 'd')
    case Pod => ('o', 'd')
  }

  lemma WordEnding(c: Component)
    ensures |Word(c)| >= 2 && (Word(c)[|Word(c)| - 2], Word(c)[|Word(c)| - 1]) == Ending(c)
  {
  }

  lemma NotSuffix(c: Component, d: Component)
    requires c != d
    ensures !HasSuffix(Word(c), Word(d))
  {
    hide Word;
    WordEnding(c);
    WordEnding(d);
    if HasSuffix(Word(c), Word(d)) {
      SuffixEnding(Word(c), Word(d));
    }
  }

  lemma SuffixEnding(w: string, p: string)
    requires |w| >= 2 && |p| >= 2 && HasSuffix(w, p)
    ensures w[|w| - 1] == p[|p| - 1] && w[|w| - 2] == p[|p| - 2]
  {
    var t := w[|w| - |p|..];
    assert t[|p| - 1] == w[|w| - 1] && t[|p| - 2] == w[|w| - 2];
  }

  lemma ReplaceInBody(x: Clause, end: string, b: string, n: nat)
    requires WellWritten(x) && n < |PREFIXES| && end in {"", "+"} && (end == "" ==> b == "")
    ensures var p, r := PREFIXES[n], [SEPARATOR] + PREFIXES[n];
      Replace(Tail(x) + (Values(x) + end + b), p, r) == Tail(x) + (Values(x) + end + Replace(b, p, r))
  {
    hide Replace, Values, Quoted;
    var p, r := PREFIXES[n], [SEPARATOR] + PREFIXES[n];
    var values := Values(x) + end;
    ValuesChars(x);
    NoneStarts(values, b, p);
    ReplaceSkips(values, b, p, r);
    NoneStarts("\"", values + b, p);
    ReplaceSkips("\"", values + b, p, r);
    if x.LabelIs? {
      ReplaceInKey(x.key, "\"" + (values + b), n);
      assert Tail(x) + (values + b) == x.key + "]" + (":" + ("\"" + (values + b)));
      assert Tail(x) + (values + Replace(b, p, r)) == x.key + "]" + (":" + ("\"" + (values + Replace(b, p, r))));
    }
  }

  lemma ReplaceInKey(key: string, rest: string, n: nat)
    requires n < |PREFIXES| && Unmarked(key)
    ensures var p, r := PREFIXES[n], [SEPARATOR] + PREFIXES[n];
      Replace(key + "]" + (":" + rest), p, r) == key + "]" + (":" + Replace(rest, p, r))
  {
    hide Replace;
    var p, r := PREFIXES[n], [SEPARATOR] + PREFIXES[n];
    NoneInColon(rest, n);
    ReplaceSkips(":", rest, p, r);
    NoneStarts(key + "]", ":" + rest, p);
    ReplaceSkips(key + "]", ":" + rest, p, r);
  }

  lemma NoneInColon(b: string, n: nat)
    requires n < |PREFIXES|
    ensures forall i :: 0 <= i < |":"| ==> !(PREFIXES[n] <= ":"[i..] + b)
  {
    assert ":"[0..] + b == ":" + b;
    assert PREFIXES[n][0] != ':';
  }

  predicate AllWell(xs: seq<Clause>) {
    forall i :: 0 <= i < |xs| ==> WellWritten(xs[i])
  }

  function End(xs: seq<Clause>): string {
    if |xs| <= 1 then "" else "+"
  }

  /** What has been put before a clause by the first n prefixes. */
  function Marks(x: Clause, n: nat): string
    requires n <= |PREFIXES|
  {
    if PrefixOf(x) in PREFIXES[..n] then [SEPARATOR] else ""
  }

  lemma MarksMore(x: Clause, n: nat)
    requires n < |PREFIXES|
    ensures Marks(x, n + 1) == Marks(x, n) + Mark(x, n)
    ensures Marks(x, n) == "" || Mark(x, n) == ""
  {
    assert PREFIXES[..n + 1] == PREFIXES[..n] + [PREFIXES[n]];
    assert forall i, j :: 0 <= i < j < |PREFIXES| ==> |PREFIXES[i]| != |PREFIXES[j]| || PREFIXES[i][10] != PREFIXES[j][10];
  }

  /** The written text with the marks of the first n prefixes. */
  function MarkedText(xs: seq<Clause>, n: nat): string
    requires n <= |PREFIXES|
  {
    if xs == [] then "" else Marks(xs[0], n) + (ClauseText(xs[0]) + End(xs) + MarkedText(xs[1..], n))
  }

  lemma {:induction false} NoMarks(xs: seq<Clause>)
    ensures MarkedText(xs, 0) == Text(xs)
  {
    if xs != [] {
      NoMarks(xs[1..]);
    }
  }

  /** Replacing the next prefix adds its marks. */
  lemma {:induction false} MarkAll(xs: seq<Clause>, n: nat)
    requires AllWell(xs) && n < |PREFIXES|
    ensures Replace(MarkedText(xs, n), PREFIXES[n], [SEPARATOR] + PREFIXES[n]) == MarkedText(xs, n + 1)
  {
    hide Marks, Mark, ClauseText, Replace, WellWritten;
    if xs == [] {
      ReplaceNothing(n);
    } else {
      var x, rest := xs[0], MarkedText(xs[1..], n);
      MarkAll(xs[1..], n);
      ReplaceInClause(x, End(xs), rest, n);
      ReplaceMarks(x, ClauseText(x) + End(xs) + rest, n);
      MarksMore(x, n);
      MarksSwap(x, n, ClauseText(x) + End(xs) + MarkedText(xs[1..], n + 1));
    }
  }

  lemma ReplaceNothing(n: nat)
    requires n < |PREFIXES|
    ensures Replace("", PREFIXES[n], [SEPARATOR] + PREFIXES[n]) == ""
  {
  }

  lemma MarksSwap(x: Clause, n: nat, rest: string)
    requires n < |PREFIXES|
    ensures Marks(x, n) + (Mark(x, n) + rest) == Marks(x, n + 1) + rest
  {
    hide Marks, Mark;
    MarksMore(x, n);
  }

  lemma ReplaceMarks(x: Clause, rest: string, n: nat)
    requires n < |PREFIXES|
    ensures var p, r := PREFIXES[n], [SEPARATOR] + PREFIXES[n];
      Replace(Marks(x, n) + rest, p, r) == Marks(x, n) + Replace(rest, p, r)
  {
    hide Replace;
    var p := PREFIXES[n];
    var m := Marks(x, n);
    assert m == "" || m == [SEPARATOR];
    NoneStarts(m, rest, p);
    ReplaceSkips(m, rest, p, [SEPARATOR] + p);
  }

  lemma {:induction false} MarkedIs(xs: seq<Clause>, n: nat)
    requires AllWell(xs) && n <= |PREFIXES|
    ensures Marked(Text(xs), n) == MarkedText(xs, n)
  {
    hide AllWell, Text, MarkedText, Replace;
    if n == 0 {
      NoMarks(xs);
    } else {
      MarkedIs(xs, n - 1);
      MarkAll(xs, n - 1);
    }
  }

  // ---------------------------------------------------------------------------------------
  // Splitting at the marks
  // ---------------------------------------------------------------------------------------

  lemma {:induction false} SplitGlue(a: string, b: string, sep: char)
    requires sep !in a
    ensures Split(a + b, sep) == [a + Split(b, sep)[0]] + Split(b, sep)[1..]
  {
    if a == "" {
      var parts := Split(b, sep);
      assert a + b == b && a + parts[0] == parts[0] && parts == [parts[0]] + parts[1..];
    } else {
      assert (a + b)[1..] == a[1..] + b;
      SplitGlue(a[1..], b, sep);
      var h, t := Split(b, sep)[0], Split(b, sep)[1..];
      var rest := [a[1..] + h] + t;
      assert rest[1..] == t && [a[0]] + rest[0] == a + h;
    }
  }

  lemma SplitAtSeparator(a: string, b: string, sep: char)
    requires sep !in a
    ensures Split(a + ([sep] + b), sep) == [a] + Split(b, sep)
  {
    assert ([sep] + b)[1..] == b;
    SplitGlue(a, [sep] + b, sep);
    assert ([""] + Split(b, sep))[1..] == Split(b, sep) && a + "" == a;
  }

  lemma SplitAlone(a: string, sep: char)
    requires sep !in a
    ensures Split(a, sep) == [a]
  {
    SplitGlue(a, "", sep);
    assert a + "" == a;
  }

  /** The clauses' texts, each with the plus sign after it. */
  function Chunks(xs: seq<Clause>): seq<string> {
    if xs == [] then [] else [ClauseText(xs[0]) + End(xs)] + Chunks(xs[1..])
  }

  lemma ChunkChars(x: Clause)
    requires WellWritten(x)
    ensures SEPARATOR !in ClauseText(x) && SEPARATOR !in ClauseText(x) + "+"
  {
    hide Values;
    ValuesChars(x);
    match x
    case ListOf(_, _) =>
    case LabelIs(key, _) => assert Unmarked(key);
  }

  lemma {:induction false} SplitMarked(xs: seq<Clause>)
    requires AllWell(xs) && forall i :: 0 <= i < |xs| ==> !IsCluster(xs[i])
    ensures Split(MarkedText(xs, 5), SEPARATOR) == [""] + Chunks(xs)
  {
    hide WellWritten, ClauseText, Marks;
    if xs != [] {
      var chunk, rest := ClauseText(xs[0]) + End(xs), MarkedText(xs[1..], 5);
      SplitMarked(xs[1..]);
      ChunkChars(xs[0]);
      AllMarked(xs[0]);
      SplitGlue(chunk, rest, SEPARATOR);
      assert chunk + "" == chunk;
      SplitAtSeparator("", chunk + rest, SEPARATOR);
      assert "" + ([SEPARATOR] + (chunk + rest)) == [SEPARATOR] + (chunk + rest);
    }
  }

  lemma AllMarked(x: Clause)
    ensures Marks(x, 5) == if IsCluster(x) then "" else [SEPARATOR]
  {
    assert PREFIXES[..5] == PREFIXES;
    match x
    case LabelIs(_, _) => assert PREFIXES[4] == PrefixOf(x);
    case ListOf(c, _) =>
      match c
      case Cluster =>
        assert |PrefixOf(x)| == 8;
        assert forall i :: 0 <= i < 5 ==> |PREFIXES[i]| != 8;
      case Namespace => assert PREFIXES[0] == PrefixOf(x);
      case ControllerName => assert PREFIXES[1] == PrefixOf(x);
      case ControllerKind => assert PREFIXES[2] == PrefixOf(x);
      case Pod => assert PREFIXES[3] == PrefixOf(x);
  }

  /** The parts of a written text: the clauses, after an empty part unless the cluster comes first. */
  lemma PartsAre(xs: seq<Clause>)
    requires AllWell(xs) && ClusterFirst(xs)
    ensures FilterParts(Text(xs)) == (if xs != [] && IsCluster(xs[0]) then [] else [""]) + Chunks(xs)
  {
    hide WellWritten, ClauseText, Marks, Marked, Text;
    MarkedIs(xs, 5);
    if xs != [] && IsCluster(xs[0]) {
      var chunk, rest := ClauseText(xs[0]) + End(xs), MarkedText(xs[1..], 5);
      SplitMarked(xs[1..]);
      ChunkChars(xs[0]);
      AllMarked(xs[0]);
      SplitGlue(chunk, rest, SEPARATOR);
      assert chunk + "" == chunk;
      assert "" + (chunk + rest) == chunk + rest;
    } else {
      SplitMarked(xs);
    }
  }

  // ---------------------------------------------------------------------------------------
  // Reading a clause
  // ---------------------------------------------------------------------------------------

  /** What a clause says, put into a filter. */
  function Put(f: Content, x: Clause): Content {
    match x
    case ListOf(c, values) => f.With(c, values)
    case LabelIs(key, value) => f.(labels := map[key := [value]])
  }

  lemma {:induction false} CutAt(a: string, b: string)
    requires ':' !in a
    ensures Cut(a + (":\"" + b), ":\"") == Some((a, b))
  {
    var rest := ":\"" + b;
    if a == "" {
      assert a + rest == rest && rest[2..] == b;
    } else {
      assert (a + rest)[0] == a[0] != ':';
      assert (a + rest)[1..] == a[1..] + rest;
      CutAt(a[1..], b);
      assert [a[0]] + a[1..] == a;
    }
  }

  /** Only the plus sign after the last quote goes. */
  lemma TrimPlus(s: string, end: string)
    requires s != "" && s[0] != '+' && s[|s| - 1] != '+' && end in {"", "+"}
    ensures Trim(s + end, {'+'}) == s
  {
    assert TrimLeft(s + end, {'+'}) == s + end;
    TrimRightChars(s, end, {'+'});
    assert TrimRight(s, {'+'}) == s;
  }

  lemma {:induction false} TrimRightQuote(s: string, end: string)
    requires (s != "" ==> s[|s| - 1] != '"') && end in {"", "\""}
    ensures TrimRight(s + end, {'"'}) == s
  {
    TrimRightChars(s, end, {'"'});
  }

  /** A value comes out of its quotes; the first one has no quote before it. */
  lemma UnquotedIs(before: string, v: string)
    requires Plain(v) && before in {"", "\""} && (before == "" && v != "" ==> v[0] != ' ')
    ensures Unquoted(before + v + "\"") == v
  {
    var s := before + v + "\"";
    assert s[|s| - 1] == '"';
    assert s[0] != ' ';
    TrimNothing(s, {' '});
    assert '"' !in v;
    if v == "" {
      QuotesOnly(s);
    } else {
      assert v[0] in v && v[|v| - 1] in v;
      if before == "" {
        assert s == v + "\"";
      } else {
        assert s[1..] == v + "\"";
      }
      assert TrimLeft(v + "\"", {'"'}) == v + "\"";
      assert TrimLeft(s, {'"'}) == v + "\"";
      TrimRightQuote(v, "\"");
    }
  }

  lemma QuotesOnly(s: string)
    requires s == "\"" || s == "\"\""
    ensures Trim(s, {'"'}) == ""
  {
    assert s[1..] == "" || s[1..] == "\"";
    assert "\""[1..] == "";
    assert TrimLeft("\"", {'"'}) == "";
  }

  /** Splitting a written list at its commas and unquoting gives the values back. */
  lemma {:induction false} SplitQuoted(before: string, values: seq<string>)
    requires values != [] && forall i :: 0 <= i < |values| ==> Plain(values[i])
    requires before in {"", "\""} && (before == "" && values[0] != "" ==> values[0][0] != ' ')
    ensures AllUnquoted(Split(before + Quoted(values), ',')) == values
    decreases |values|
  {
    hide Split, Unquoted, Quoted, AllUnquoted, Plain;
    var piece := before + values[0] + "\"";
    assert Plain(values[0]);
    UnquotedIs(before, values[0]);
    FirstPiece(before, values);
    if |values| == 1 {
      assert piece + "" == piece;
      SplitAlone(piece, ',');
      UnquotedOne(piece);
      assert [values[0]] == values;
    } else {
      var rest := "\"" + Quoted(values[1..]);
      SplitAtSeparator(piece, rest, ',');
      SplitQuoted("\"", values[1..]);
      UnquotedConcat(piece, Split(rest, ','));
      assert [values[0]] + values[1..] == values;
    }
  }

  lemma FirstPiece(before: string, values: seq<string>)
    requires values != [] && Plain(values[0]) && before in {"", "\""}
    ensures ',' !in before + values[0] + "\""
    ensures before + Quoted(values) ==
      before + values[0] + "\"" + if |values| == 1 then "" else [','] + ("\"" + Quoted(values[1..]))
  {
    hide Quoted, Plain;
    PlainPiece(before, values[0]);
    var q, rest := "\"", [','] + ("\"" + Quoted(values[1..]));
    QuotedIs(values);
    if |values| > 1 {
      Regroup4(before, values[0], q, rest);
    } else {
      Regroup4(before, values[0], q, "");
    }
  }

  lemma QuotedIs(values: seq<string>)
    requires values != []
    ensures Quoted(values) ==
      values[0] + "\"" + if |values| == 1 then "" else [','] + ("\"" + Quoted(values[1..]))
  {
    if |values| == 1 {
      assert values[0] + "\"" + "" == values[0] + "\"";
    }
  }

  lemma PlainPiece(before: string, v: string)
    requires Plain(v) && before in {"", "\""}
    ensures ',' !in before + v + "\""
  {
  }

  lemma Regroup4(a: string, b: string, c: string, d: string)
    ensures a + (b + c + d) == a + b + c + d
  {
  }

  lemma UnquotedOne(piece: string)
    ensures AllUnquoted([piece]) == [Unquoted(piece)]
  {
  }

  lemma UnquotedConcat(piece: string, pieces: seq<string>)
    ensures AllUnquoted([piece] + pieces) == [Unquoted(piece)] + AllUnquoted(pieces)
  {
  }

  /** A key is recognised: no other component's word is looked for first and begins it. */
  lemma KeyIsRead(x: Clause)
    requires WellWritten(x)
    ensures Key(x) != "" && ':' !in Key(x) && Trim(Key(x), {'"'}) == Key(x) && Key(x)[0] != ' '
    ensures ComponentOf(Key(x)) == if x.ListOf? then Some(x.component) else None
    ensures x.LabelIs? ==> HasPrefix(Key(x), "label[") && TrimSuffix(TrimPrefix(Key(x), "label["), "]") == x.key
  {
    match x
    case ListOf(c, _) => WordIsRead(c);
    case LabelIs(key, _) => LabelIsRead(key);
  }

  lemma LabelIsRead(key: string)
    requires Unmarked(key)
    ensures var s := "label[" + key + "]";
      && ':' !in s && Trim(s, {'"'}) == s && s[0] == 'l' && ComponentOf(s) == None
      && HasPrefix(s, "label[") && TrimSuffix(TrimPrefix(s, "label["), "]") == key
  {
    hide Trim;
    var s := "label[" + key + "]";
    assert s[0] == 'l' && s[|s| - 1] == ']';
    TrimNothing(s, {'"'});
    assert s[6..] == key + "]" && (key + "]")[..|key|] == key;
  }

  lemma WordIsRead(c: Component)
    ensures Word(c) != "" && ':' !in Word(c) && Trim(Word(c), {'"'}) == Word(c) && Word(c)[0] != ' '
    ensures ComponentOf(Word(c)) == Some(c)
  {
    var w := Word(c);
    TrimNothing(w, {'"'});
    assert c.ControllerName? || c.ControllerKind? ==> w[1] == 'o';
    assert c.ControllerKind? ==> w[10] == 'K';
  }

  lemma ValuesStart(x: Clause)
    requires WellWritten(x)
    ensures Values(x)[0] != '+'
  {
    match x
    case ListOf(_, values) => QuotedIs(values); assert values[0] in values;
    case LabelIs(_, value) =>
  }

  /** A written clause is read as what it says. */
  lemma ClauseIsRead(f: Content, x: Clause, end: string)
    requires WellWritten(x) && end in {"", "+"}
    ensures Apply(f, ClauseText(x) + end) == Success(Put(f, x))
  {
    hide Trim, Cut, ComponentOf, Key, Values, WellWritten, ValueList, TrimPrefix, TrimSuffix;
    var key, values := Key(x), Values(x);
    var part := key + (":\"" + (values + end));
    KeyIsRead(x);
    ValuesStart(x);
    ValuesChars(x);
    assert ClauseText(x) + end == part;
    assert part[|part| - 1] == if end == "" then values[|values| - 1] else '+';
    TrimNothing(part, {' '});
    CutAt(key, values + end);
    TrimPlus(values, end);
    ValuesAreRead(x);
  }

  lemma ValuesAreRead(x: Clause)
    requires WellWritten(x)
    ensures match x
            case ListOf(_, values) => ValueList(Values(x)) == values
            case LabelIs(_, value) => Trim(Values(x), {'"'}) == value
  {
    match x
    case ListOf(_, values) =>
      SplitQuoted("", values);
      assert "" + Quoted(values) == Quoted(values);
    case LabelIs(_, value) =>
      if value == "" {
        assert value + "\"" == "\"";
        QuotesOnly(value + "\"");
      } else {
        assert value[0] in value && value[|value| - 1] in value;
        assert TrimLeft(value + "\"", {'"'}) == value + "\"";
        TrimRightQuote(value, "\"");
      }
  }

  // ---------------------------------------------------------------------------------------
  // The whole filter
  // ---------------------------------------------------------------------------------------

  lemma {:induction false} ChunkAt(xs: seq<Clause>, i: nat)
    requires i < |xs|
    ensures |Chunks(xs)| == |xs|
    ensures Chunks(xs)[i] == ClauseText(xs[i]) + if i == |xs| - 1 then "" else "+"
  {
    hide ClauseText;
    if i > 0 {
      ChunkAt(xs[1..], i - 1);
    } else if |xs| > 1 {
      ChunkAt(xs[1..], 0);
    }
  }

  function PutAll(xs: seq<Clause>): Content {
    if xs == [] then EMPTY else Put(PutAll(xs[..|xs| - 1]), xs[|xs| - 1])
  }

  /** Applying the parts puts in the clauses, in order. */
  lemma {:induction false} ChunksAreRead(xs: seq<Clause>, before: seq<string>, n: nat)
    requires AllWell(xs) && n <= |xs| && before in {[], [""]}
    ensures |Chunks(xs)| == |xs| && ApplyAll(before + Chunks(xs)[..n]) == Success(PutAll(xs[..n]))
  {
    hide ClauseText, WellWritten, Put, Apply, Chunks;
    if |xs| > 0 {
      ChunkAt(xs, 0);
    } else {
      assert Chunks(xs) == [] by { NoChunks(); }
    }
    if n == 0 {
      StartIsEmpty(before, Chunks(xs)[..0]);
      assert xs[..0] == [];
    } else {
      ChunkAt(xs, n - 1);
      ChunksAreRead(xs, before, n - 1);
      var x := xs[n - 1];
      ClauseIsRead(PutAll(xs[..n - 1]), x, if n == |xs| then "" else "+");
      assert xs[..n][..n - 1] == xs[..n - 1];
      var parts := before + Chunks(xs)[..n];
      assert parts[..|parts| - 1] == before + Chunks(xs)[..n - 1];
    }
  }

  lemma NoChunks()
    ensures Chunks([]) == []
  {
  }

  lemma StartIsEmpty(before: seq<string>, none: seq<string>)
    requires before in {[], [""]} && none == []
    ensures ApplyAll(before + none) == Success(EMPTY)
  {
    assert before + none == before;
    assert [""][..0] == [];
    assert Apply(EMPTY, "") == Success(EMPTY);
  }

  lemma PutSays(g: Content, x: Clause, c: Component)
    ensures Put(g, x).Get(c) == if x.ListOf? && x.component == c then x.values else g.Get(c)
    ensures Put(g, x).labels == if x.LabelIs? then map[x.key := [x.value]] else g.labels
  {
  }

  /** Clauses of a filter put together give the filter's components, as far as they are written. */
  lemma {:induction false} PutComponent(xs: seq<Clause>, f: Content, c: Component)
    requires forall i :: 0 <= i < |xs| ==> SaysOf(xs[i], f)
    ensures PutAll(xs).Get(c) == f.Get(c) || PutAll(xs).Get(c) == []
    ensures ListOf(c, f.Get(c)) in xs ==> PutAll(xs).Get(c) == f.Get(c)
  {
    hide Put, Content.Get;
    if xs == [] {
      assert EMPTY.Get(c) == [] by { EmptyGet(c); }
    } else {
      var n := |xs| - 1;
      PutComponent(xs[..n], f, c);
      PutSays(PutAll(xs[..n]), xs[n], c);
      assert xs == xs[..n] + [xs[n]];
    }
  }

  lemma EmptyGet(c: Component)
    ensures EMPTY.Get(c) == []
  {
  }

  lemma {:induction false} PutLabels(xs: seq<Clause>, f: Content)
    requires forall i :: 0 <= i < |xs| ==> SaysOf(xs[i], f)
    ensures PutAll(xs).labels == f.labels || PutAll(xs).labels == map[]
    ensures (exists x :: x in xs && x.LabelIs?) ==> PutAll(xs).labels == f.labels
  {
    hide Put;
    if xs != [] {
      var n := |xs| - 1;
      PutLabels(xs[..n], f);
      PutSays(PutAll(xs[..n]), xs[n], Cluster);
      assert xs == xs[..n] + [xs[n]];
    }
  }

  lemma SameContent(f: Content, g: Content)
    requires (forall c :: f.Get(c) == g.Get(c)) && f.labels == g.labels
    ensures f == g
  {
    assert f.Get(Cluster) == g.Get(Cluster) && f.Get(Namespace) == g.Get(Namespace);
    assert f.Get(ControllerName) == g.Get(ControllerName) && f.Get(ControllerKind) == g.Get(ControllerKind);
    assert f.Get(Pod) == g.Get(Pod);
  }

  lemma PutAllIs(xs: seq<Clause>, f: Content)
    requires Writes(xs, f)
    ensures PutAll(xs) == f
  {
    hide Content.Get, PutAll, WellWritten, SaysOf;
    forall c ensures PutAll(xs).Get(c) == f.Get(c) {
      PutComponent(xs, f, c);
    }
    PutLabels(xs, f);
    if f.labels != map[] {
      var k :| k in f.labels;
      var v :| LabelIs(k, v) in xs;
      assert LabelIs(k, v).LabelIs?;
    }
    SameContent(PutAll(xs), f);
  }

  predicate IsCanonical(kind: string) {
    kind in {"ReplicaSet", "DaemonSet", "StatefulSet", "Job"}
  }

  lemma {:induction false} CanonicalStays(kinds: seq<string>)
    requires forall i :: 0 <= i < |kinds| ==> IsCanonical(kinds[i])
    ensures CanonicalKinds(kinds) == Success(kinds)
  {
    hide CanonicalKind, CanonicalKinds, IsCanonical;
    if kinds == [] {
      NoKinds();
    } else {
      var n := |kinds| - 1;
      CanonicalStays(kinds[..n]);
      CanonicalItself(kinds[n]);
      LastKindStays(kinds[..n], kinds[n]);
      assert kinds[..n] + [kinds[n]] == kinds;
    }
  }

  lemma NoKinds()
    ensures CanonicalKinds([]) == Success([])
  {
  }

  lemma LastKindStays(before: seq<string>, kind: string)
    requires CanonicalKinds(before) == Success(before) && CanonicalKind(kind) == Some(kind)
    ensures CanonicalKinds(before + [kind]) == Success(before + [kind])
  {
    hide CanonicalKind;
    var kinds := before + [kind];
    assert kinds[..|kinds| - 1] == before && kinds[|kinds| - 1] == kind;
  }

  lemma CanonicalItself(kind: string)
    requires IsCanonical(kind)
    ensures CanonicalKind(kind) == Some(kind)
  {
    hide ToLower;
    if kind == "ReplicaSet" {
      LowerIs(kind, "replicaset");
      assert "replicaset"[0] != "deployment"[0];
    } else if kind == "DaemonSet" {
      LowerIs(kind, "daemonset");
    } else if kind == "StatefulSet" {
      LowerIs(kind, "statefulset");
    } else {
      LowerIs(kind, "job");
    }
  }

  lemma {:induction false} LowerIs(s: string, lower: string)
    requires |s| == |lower| && forall i :: 0 <= i < |s| ==> LowerChar(s[i]) == lower[i]
    ensures ToLower(s) == lower
  {
    if s != "" {
      LowerIs(s[1..], lower[1..]);
    }
  }

  /**
   Recovery: a filter written as text, its clauses in any order after the cluster's, is parsed back as
   that filter with canonical controller kinds, or rejected if a kind has no canonical form.
   */
  lemma WrittenIsRecovered(xs: seq<Clause>, f: Content)
    requires Writes(xs, f)
    ensures Meaning(Text(xs)) ==
      match CanonicalKinds(f.controllerKind)
      case Success(kinds) => Success(f.(controllerKind := kinds))
      case Failure(e) => Failure(e)
  {
    hide Chunks, ClauseText, Apply, PutAll, WellWritten, FilterParts;
    var before := if xs != [] && IsCluster(xs[0]) then [] else [""];
    PartsAre(xs);
    ChunksAreRead(xs, before, |xs|);
    assert Chunks(xs)[..|xs|] == Chunks(xs) && xs[..|xs|] == xs;
    PutAllIs(xs, f);
  }

  /** With canonical kinds the very same filter comes back. */
  lemma CanonicalIsRecovered(xs: seq<Clause>, f: Content)
    requires Writes(xs, f) && forall i :: 0 <= i < |f.controllerKind| ==> IsCanonical(f.controllerKind[i])
    ensures Meaning(Text(xs)) == Success(f)
  {
    hide Writes, IsCanonical, Text, Meaning;
    WrittenIsRecovered(xs, f);
    CanonicalStays(f.controllerKind);
  }

  /** The order in which the clauses after the cluster's are written does not matter. */
  lemma OrderDoesNotMatter(xs: seq<Clause>, ys: seq<Clause>, f: Content)
    requires Writes(xs, f) && multiset(xs) == multiset(ys) && ClusterFirst(ys)
    ensures Meaning(Text(ys)) == Meaning(Text(xs))
  {
    hide Text, Meaning, WellWritten, SaysOf, Content.Get;
    SameClauses(xs, ys);
    assert forall i :: 0 <= i < |ys| ==> ys[i] in xs;
    WrittenIsRecovered(xs, f);
    WrittenIsRecovered(ys, f);
  }

  lemma SameClauses(xs: seq<Clause>, ys: seq<Clause>)
    requires multiset(xs) == multiset(ys)
    ensures forall x :: x in xs <==> x in ys
  {
    forall x ensures x in xs <==> x in ys {
      assert x in xs <==> x in multiset(xs);
      assert x in ys <==> x in multiset(ys);
    }
  }
}
