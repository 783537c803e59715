/** What else the filter parser accepts: any beginning of a key, spaces, kinds in any case; and what it rejects. */
module FilterErrors {
  import opened Wrappers
  import opened GoStrings
  import opened Filters
  import opened FilterRecovery

  /** The kind is the word, in upper or lower case. */
  predicate InAnyCase(kind: string, word: string) {
    |kind| == |word| && forall i :: 0 <= i < |kind| ==> LowerChar(kind[i]) == word[i]
  }

  lemma {:induction false} LowerChars(s: string)
    ensures |ToLower(s)| == |s| && forall i :: 0 <= i < |s| ==> ToLower(s)[i] == LowerChar(s[i])
  {
    if s != "" {
      LowerChars(s[1..]);
    }
  }

  lemma InAnyCaseIs(kind: string, word: string)
    ensures InAnyCase(kind, word) <==> ToLower(kind) == word
  {
    hide ToLower, LowerChar;
    LowerChars(kind);
  }

  /** The canonical kinds: deployments stand for their replica sets; of anything else there is none. */
  lemma KindsAre(kind: string)
    ensures CanonicalKind(kind) == Some("ReplicaSet") <==> InAnyCase(kind, "deployment") || InAnyCase(kind, "replicaset")
    ensures CanonicalKind(kind) == Some("DaemonSet") <==> InAnyCase(kind, "daemonset")
    ensures CanonicalKind(kind) == Some("StatefulSet") <==> InAnyCase(kind, "statefulset")
    ensures CanonicalKind(kind) == Some("Job") <==> InAnyCase(kind, "job")
    ensures CanonicalKind(kind).Some? ==> CanonicalKind(kind).value in {"ReplicaSet", "DaemonSet", "StatefulSet", "Job"}
  {
    hide ToLower, InAnyCase;
    InAnyCaseIs(kind, "deployment");
    InAnyCaseIs(kind, "replicaset");
    InAnyCaseIs(kind, "daemonset");
    InAnyCaseIs(kind, "statefulset");
    InAnyCaseIs(kind, "job");
    Lengths();
  }

  lemma Lengths()
    ensures |"ReplicaSet"| == |"deployment"| == |"replicaset"| == 10 && |"DaemonSet"| == |"daemonset"| == 9
    ensures |"StatefulSet"| == |"statefulset"| == 11 && |"Job"| == |"job"| == 3
  {
  }

  // ---------------------------------------------------------------------------------------

  /** A text in which no prefix occurs is its only part. */
  lemma UnmarkedPart(text: string)
    requires SEPARATOR !in text
    requires forall n, i :: 0 <= n < |PREFIXES| && 0 <= i < |text| ==> !(PREFIXES[n] <= text[i..] + "")
    ensures FilterParts(text) == [text]
  {
    hide Marked;
    KeepsUnmarked(text, 5);
    SplitAlone(text, SEPARATOR);
  }

  lemma {:induction false} KeepsUnmarked(text: string, n: nat)
    requires n <= |PREFIXES|
    requires forall n, i :: 0 <= n < |PREFIXES| && 0 <= i < |text| ==> !(PREFIXES[n] <= text[i..] + "")
    ensures Marked(text, n) == text
  {
    hide Replace;
    if n > 0 {
      KeepsUnmarked(text, n - 1);
      var p, r := PREFIXES[n - 1], [SEPARATOR] + PREFIXES[n - 1];
      ReplaceSkips(text, "", p, r);
      assert text + "" == text;
      NothingReplaced(p, r);
    }
  }

  lemma NothingReplaced(p: string, r: string)
    requires p != ""
    ensures Replace("", p, r) == ""
  {
  }

  lemma OnePart(part: string)
    ensures ApplyAll([part]) == Apply(EMPTY, part)
  {
    assert [part][..0] == [];
    assert ApplyAll([]) == Success(EMPTY);
  }

  /** A text without a colon is no filter, unless it is empty. */
  lemma NoFieldIsAnError(text: string)
    requires text != "" && Unmarked(text) && text[0] != ' ' && text[|text| - 1] != ' '
    ensures Meaning(text) == Failure(InvalidFormat(text))
  {
    hide Marked, FilterParts, Cut, Trim;
    forall n, i | 0 <= n < |PREFIXES| && 0 <= i < |text| ensures !(PREFIXES[n] <= text[i..] + "") {
      EndsOutside(text, i, n);
    }
    assert SEPARATOR !in text;
    UnmarkedPart(text);
    OnePart(text);
    TrimNothing(text, {' '});
    NoCut(text);
  }

  lemma EndsOutside(text: string, i: nat, n: nat)
    requires Unmarked(text) && n < |PREFIXES| && i < |text|
    ensures !(PREFIXES[n] <= text[i..] + "")
  {
    var p, s := PREFIXES[n], text[i..] + "";
    assert p[|p| - 1] in {':', '['};
    if |p| <= |s| {
      assert s[|p| - 1] == text[i + |p| - 1] && text[i + |p| - 1] in text;
    }
  }

  lemma {:induction false} NoCut(text: string)
    requires ':' !in text
    ensures Cut(text, ":\"") == None
  {
    if text != "" {
      assert text[0] in text && ":\""[0] == ':';
      NoCut(text[1..]);
    }
  }

  /** The words a field may begin with. */
  predicate BeginsLikeAField(key: string) {
    || HasPrefix(key, "cluster") || HasPrefix(key, "namespace") || HasPrefix(key, "controllerName")
    || HasPrefix(key, "controllerKind") || HasPrefix(key, "pod") || HasPrefix(key, "label[")
  }

  /** A field whose key does not begin with one of these words, nor end in one that is looked for, is an error. */
  lemma UnknownFieldIsAnError(key: string, value: string)
    requires key != "" && Unmarked(key) && Unmarked(value) && !BeginsLikeAField(key)
    requires key[0] !in {' ', '"'} && key[|key| - 1] != '"'
    requires forall c :: c != Cluster ==> !HasSuffix(key, Word(c))
    ensures Meaning(key + (":\"" + (value + "\""))) == Failure(UnsupportedKey(key))
  {
    hide Marked, FilterParts, Cut, Trim, HasSuffix, Word;
    var rest := value + "\"";
    var text := key + (":\"" + rest);
    NoPrefixIn(key, value);
    UnmarkedPart(text);
    OnePart(text);
    assert text[0] == key[0] && text[|text| - 1] == '"';
    TrimNothing(text, {' '});
    CutAt(key, rest);
    TrimNothing(key, {'"'});
  }

  lemma NoPrefixIn(key: string, value: string)
    requires key != "" && Unmarked(key) && Unmarked(value) && forall c :: c != Cluster ==> !HasSuffix(key, Word(c))
    ensures var text := key + (":\"" + (value + "\""));
      && SEPARATOR !in text
      && forall n, i :: 0 <= n < |PREFIXES| && 0 <= i < |text| ==> !(PREFIXES[n] <= text[i..] + "")
  {
    hide HasSuffix, Word;
    var rest := "\"" + (value + "\"");
    var text := key + (":\"" + (value + "\""));
    assert text == key + ":" + rest;
    forall n, i | 0 <= n < |PREFIXES| && 0 <= i < |text| ensures !(PREFIXES[n] <= text[i..] + "") {
      if n == 4 {
        NoneStarts(text, "", PREFIXES[n]);
      } else if i < |key + ":"| {
        PrefixWord(n);
        WordChars(PrefixComponent(n));
        NoneInWord(key, rest, Word(PrefixComponent(n)));
        assert text[i..] + "" == (key + ":")[i..] + rest;
      } else {
        NoneStarts(rest, "", PREFIXES[n]);
        assert text[i..] == rest[i - |key + ":"|..];
      }
    }
  }

  // ---------------------------------------------------------------------------------------

  /** A key is known by its beginning, whatever follows. */
  lemma KeysByBeginning(c: Component, more: string)
    ensures ComponentOf(Word(c) + more) == Some(c)
  {
    var key := Word(c) + more;
    assert key[..|Word(c)|] == Word(c);
    assert c == Cluster ==> key[0] == 'c' && key[1] == 'l';
    assert c == Namespace ==> key[0] == 'n';
    assert c == ControllerName ==> key[0] == 'c' && key[1] == 'o' && key[10] == 'N';
    assert c == ControllerKind ==> key[0] == 'c' && key[1] == 'o' && key[10] == 'K';
    assert c == Pod ==> key[0] == 'p';
    assert "cluster"[1] == 'l' && "controllerName"[10] == 'N' && "controllerName"[1] == 'o';
  }

  predicate Spaces(s: string) {
    forall i :: 0 <= i < |s| ==> s[i] == ' '
  }

  lemma {:induction false} TrimLeftSpaces(before: string, s: string)
    requires Spaces(before)
    ensures TrimLeft(before + s, {' '}) == TrimLeft(s, {' '})
  {
    if before == "" {
      assert before + s == s;
    } else {
      assert (before + s)[1..] == before[1..] + s;
      TrimLeftSpaces(before[1..], s);
    }
  }

  lemma SpacesTrimmed(before: string, s: string, after: string)
    requires Spaces(before) && Spaces(after) && s != "" && s[0] != ' ' && s[|s| - 1] != ' '
    ensures Trim(before + s + after, {' '}) == s
  {
    assert before + s + after == before + (s + after);
    TrimLeftSpaces(before, s + after);
    assert TrimLeft(s + after, {' '}) == s + after;
    TrimRightChars(s, after, {' '});
  }

  /** Spaces around a quoted value, as in "a", "b", are not read; those within it are. */
  lemma SpacesAroundValues(before: string, v: string, after: string)
    requires Spaces(before) && Spaces(after) && Plain(v)
    ensures Unquoted(before + ("\"" + v + "\"") + after) == v
  {
    hide Trim, Plain;
    var s := "\"" + v + "\"";
    SpacesTrimmed(before, s, after);
    UnquotedIs("\"", v);
    TrimNothing(s, {' '});
  }

  /** Spaces around a field, as between two fields, are not read. */
  lemma SpacesAroundFields(f: Content, before: string, part: string, after: string)
    requires Spaces(before) && Spaces(after) && part != "" && part[0] != ' ' && part[|part| - 1] != ' '
    ensures Apply(f, before + part + after) == Apply(f, part)
  {
    hide Trim, Cut, ComponentOf, ValueList;
    SpacesTrimmed(before, part, after);
    TrimNothing(part, {' '});
    assert before + part + after != "";
  }
}
