/** The merge by place: which entries set a variable, where a changed one is
    written, and what is added at the end. */
module BootEditPlaces {
  import opened Strings
  import opened BootEdit
  import opened BootEditProofs

  // ---- which entries set a variable

  /** The entry is an assignment to k, after an `export` or not: white space may
      stand before it, around the name and anywhere after the equals sign. */
  ghost predicate Assigns(entry: string, k: string) {
    exists before: string, gap: string, space: string, rest: string :: AssignsWith(entry, k, before, gap, space, rest)
  }

  ghost predicate AssignsWith(entry: string, k: string, before: string, gap: string, space: string, rest: string) {
    && AllSpace(before) && AllSpace(gap) && AllSpace(space)
    && (entry == before + k + space + "=" + rest || entry == before + "export " + gap + k + space + "=" + rest)
  }

  lemma {:induction false} LeftOff(before: string, s: string)
    requires AllSpace(before) && s != "" && !IsSpace(s[0])
    ensures TrimLeft(before + s) == s
  {
    if before == "" {
      assert before + s == s;
    } else {
      assert (before + s)[1..] == before[1..] + s;
      LeftOff(before[1..], s);
    }
  }

  lemma {:induction false} RightOff(s: string, after: string)
    requires AllSpace(after) && s != "" && !IsSpace(s[|s| - 1])
    ensures TrimRight(s + after) == s
  {
    if after == "" {
      assert s + after == s;
    } else {
      var n := |after| - 1;
      assert (s + after)[..|s + after| - 1] == s + after[..n];
      RightOff(s, after[..n]);
    }
  }

  /** White space around a text that has none at its ends goes away. */
  lemma TrimOff(before: string, s: string, after: string)
    requires AllSpace(before) && AllSpace(after) && s != "" && !IsSpace(s[0]) && !IsSpace(s[|s| - 1])
    ensures Trim(before + s + after) == s
  {
    assert (before + s)[|before + s| - 1] == s[|s| - 1];
    RightOff(before + s, after);
    LeftOff(before, s);
  }

  lemma NameHasNoSpace(k: string, i: nat)
    requires Name(k) && i < |k|
    ensures !IsSpace(k[i]) && k[i] !in {'#', ';', '=', 'e'}
  {
    assert NameChar(k[i]);
  }

  /** Cutting at the equals sign and trimming gives the name. */
  lemma CutName(gap: string, k: string, space: string, rest: string)
    requires AllSpace(gap) && AllSpace(space) && Name(k)
    ensures var s := gap + k + space + "=" + rest; IndexOf(s, '=') == |gap + k + space| && Trim(s[..IndexOf(s, '=')]) == k
  {
    var head := gap + k + space;
    var s := head + "=" + rest;
    forall i | 0 <= i < |head| ensures s[i] != '=' {
      assert s[i] == head[i];
      if |gap| <= i < |gap| + |k| { NameHasNoSpace(k, i - |gap|); }
    }
    IndexOfIs(s, '=', |head|);
    assert s[..|head|] == head;
    NameHasNoSpace(k, 0);
    NameHasNoSpace(k, |k| - 1);
    TrimOff(gap, k, space);
  }

  /** Trimming an entry that has an equals sign after some text. */
  lemma TrimEntry(before: string, head: string, rest: string) returns (kept: string)
    requires AllSpace(before) && head != "" && !IsSpace(head[0])
    ensures Trim(before + head + "=" + rest) == head + "=" + kept
  {
    var space := RightInside(rest);
    kept := TrimRight(rest);
    var body := head + "=" + kept;
    assert before + head + "=" + rest == before + body + space;
    assert body[0] == head[0];
    assert !IsSpace('=');
    assert body[|body| - 1] == if kept == "" then '=' else kept[|kept| - 1];
    TrimOff(before, body, space);
  }

  lemma PlainAssigns(before: string, k: string, space: string, rest: string)
    requires AllSpace(before) && AllSpace(space) && Name(k)
    ensures KeyOf(before + k + space + "=" + rest) == k
  {
    NameHasNoSpace(k, 0);
    var head := k + space;
    var kept := TrimEntry(before, head, rest);
    assert before + k + space + "=" + rest == before + head + "=" + rest;
    var s := head + "=" + kept;
    assert s[0] == k[0] && EXPORT[0] == 'e';
    CutName("", k, space, kept);
    assert "" + k + space + "=" + kept == s;
  }

  lemma ExportAssigns(before: string, gap: string, k: string, space: string, rest: string)
    requires AllSpace(before) && AllSpace(gap) && AllSpace(space) && Name(k)
    ensures KeyOf(before + "export " + gap + k + space + "=" + rest) == k
  {
    var head := "export " + gap + k + space;
    assert head[0] == 'e' && !IsSpace('e');
    var kept := TrimEntry(before, head, rest);
    assert before + "export " + gap + k + space + "=" + rest == before + head + "=" + rest;
    var s, a := head + "=" + kept, gap + k + space + "=" + kept;
    assert s == EXPORT + a && s[|EXPORT|..] == a;
    CutName(gap, k, space, kept);
  }

  lemma CutAt(a: string) returns (gap: string, space: string, rest: string)
    requires IndexOf(a, '=') < |a|
    ensures AllSpace(gap) && AllSpace(space) && a == gap + Trim(a[..IndexOf(a, '=')]) + space + "=" + rest
  {
    var i := IndexOf(a, '=');
    IndexOfHit(a, '=');
    gap, space := TrimInside(a[..i]);
    rest := a[i + 1..];
    assert a == a[..i] + "=" + rest;
  }

  lemma AssignmentInside(entry: string) returns (before: string, after: string)
    requires Assignment(entry) != ""
    ensures AllSpace(before) && AllSpace(after)
    ensures entry == before + Assignment(entry) + after || entry == before + "export " + Assignment(entry) + after
  {
    before, after := TrimInside(entry);
    var s := Trim(entry);
    if EXPORT <= s {
      assert s == EXPORT + s[|EXPORT|..];
      assert before + (EXPORT + s[|EXPORT|..]) + after == before + "export " + s[|EXPORT|..] + after;
    }
  }

  lemma Around(before: string, gap: string, k: string, space: string, rest: string, after: string)
    ensures before + (gap + k + space + "=" + rest) + after == (before + gap) + k + space + "=" + (rest + after)
    ensures before + "export " + (gap + k + space + "=" + rest) + after == before + "export " + gap + k + space + "=" + (rest + after)
  {
  }

  lemma KeyAssigns(entry: string, k: string)
    requires Name(k) && KeyOf(entry) == k
    ensures Assigns(entry, k)
  {
    var a := Assignment(entry);
    var before, after := AssignmentInside(entry);
    var gap, space, rest := CutAt(a);
    Around(before, gap, k, space, rest, after);
    if entry == before + a + after {
      assert AssignsWith(entry, k, before + gap, "", space, rest + after);
    } else {
      assert AssignsWith(entry, k, before, gap, space, rest + after);
    }
  }

  lemma {:induction false} IndexOfHit(s: string, c: char)
    ensures IndexOf(s, c) < |s| ==> s[IndexOf(s, c)] == c
  {
    if s != "" && s[0] != c { IndexOfHit(s[1..], c); }
  }

  /** A variable's entries are exactly the assignments to it. */
  lemma KeyOfIs(entry: string, k: string)
    requires Name(k)
    ensures KeyOf(entry) == k <==> Assigns(entry, k)
  {
    if Assigns(entry, k) {
      var before: string, gap: string, space: string, rest: string :| AssignsWith(entry, k, before, gap, space, rest);
      if entry == before + k + space + "=" + rest {
        PlainAssigns(before, k, space, rest);
      } else {
        ExportAssigns(before, gap, k, space, rest);
      }
    }
    if KeyOf(entry) == k { KeyAssigns(entry, k); }
  }

  // ---- which entries go on

  lemma {:induction false} EolInside(s: string) returns (eol: string)
    ensures s == TrimEol(s) + eol && forall i | 0 <= i < |eol| :: eol[i] in {'\r', '\n'}
    ensures TrimEol(s) == "" || TrimEol(s)[|TrimEol(s)| - 1] !in {'\r', '\n'}
  {
    eol := "";
    if s != "" && s[|s| - 1] in {'\r', '\n'} {
      var n := |s| - 1;
      var more := EolInside(s[..n]);
      eol := more + [s[n]];
    }
  }

  lemma {:induction false} EolOff(s: string, eol: string)
    requires (s == "" || s[|s| - 1] !in {'\r', '\n'}) && forall i | 0 <= i < |eol| :: eol[i] in {'\r', '\n'}
    ensures TrimEol(s + eol) == s
  {
    if eol == "" {
      assert s + eol == s;
    } else {
      var n := |eol| - 1;
      assert (s + eol)[..|s + eol| - 1] == s + eol[..n];
      EolOff(s, eol[..n]);
    }
  }

  /** An entry goes on exactly when there is a backslash before its line end. */
  lemma ContinuesIs(entry: string)
    ensures Continues(entry) <==>
            exists front: string, eol: string :: entry == front + "\\" + eol && forall i | 0 <= i < |eol| :: eol[i] in {'\r', '\n'}
  {
    var eol := EolInside(entry);
    var t := TrimEol(entry);
    if Continues(entry) {
      assert entry == t[..|t| - 1] + "\\" + eol;
    }
    if front: string, end: string :| entry == front + "\\" + end && forall i | 0 <= i < |end| :: end[i] in {'\r', '\n'} {
      EolOff(front + "\\", end);
    }
  }

  // ---- where changes are made

  /** No entry before this one sets its variable. */
  ghost predicate FirstOf(es: seq<Entry>, i: nat)
    requires i < |es|
  {
    forall j: nat | j < i :: es[j].key != es[i].key
  }

  /** What becomes of one entry of the file: it stays when its variable is not
      changed; the first for a variable given a value is replaced by its new
      line; any other goes. */
  ghost function Becomes(es: seq<Entry>, changes: map<string, string>, i: nat): seq<Entry>
    requires i < |es|
  {
    var k := es[i].key;
    if k !in changes then [es[i]] else if changes[k] != "" && FirstOf(es, i) then [LineEntry(k, changes[k])] else []
  }

  /** The first n entries, each with what becomes of it in its place. */
  ghost function InPlace(es: seq<Entry>, changes: map<string, string>, n: nat): seq<Entry>
    requires n <= |es|
  {
    if n == 0 then [] else InPlace(es, changes, n - 1) + Becomes(es, changes, n - 1)
  }

  /** The variables the first n entries write. */
  ghost function Done(es: seq<Entry>, changes: map<string, string>, n: nat): set<string>
    requires n <= |es|
  {
    set i: nat | i < n && es[i].key in changes && changes[es[i].key] != "" :: es[i].key
  }

  lemma DoneNext(es: seq<Entry>, changes: map<string, string>, n: nat)
    requires n < |es|
    ensures var k := es[n].key;
            && Done(es, changes, n + 1) == Done(es, changes, n) + (if k in changes && changes[k] != "" then {k} else {})
            && (k in changes && changes[k] != "" ==> (FirstOf(es, n) <==> k !in Done(es, changes, n)))
  {
  }

  lemma RewriteStep(es: seq<Entry>, changes: map<string, string>, n: nat)
    requires n < |es|
    ensures Rewrite(es[n..], changes, Done(es, changes, n)) ==
            Becomes(es, changes, n) + Rewrite(es[n + 1..], changes, Done(es, changes, n + 1))
  {
    DoneNext(es, changes, n);
    var k, done := es[n].key, Done(es, changes, n);
    assert es[n..][0] == es[n] && es[n..][1..] == es[n + 1..];
    assert done + {} == done && (k in done ==> done + {k} == done);
    if k in changes && (k in done || changes[k] == "") {
      var rest := Rewrite(es[n + 1..], changes, done);
      assert Becomes(es, changes, n) == [] && [] + rest == rest;
    }
  }

  /** The rest of the file, rewritten with what has been written so far, follows what has become of the entries before it. */
  lemma {:induction false} RewriteFrom(es: seq<Entry>, changes: map<string, string>, n: nat)
    requires n <= |es|
    ensures InPlace(es, changes, n) + Rewrite(es[n..], changes, Done(es, changes, n)) == InPlace(es, changes, |es|)
    decreases |es| - n
  {
    if n < |es| {
      RewriteFrom(es, changes, n + 1);
      RewriteStep(es, changes, n);
      var before, here, rest := InPlace(es, changes, n), Becomes(es, changes, n), Rewrite(es[n + 1..], changes, Done(es, changes, n + 1));
      assert before + (here + rest) == (before + here) + rest;
    }
  }

  /** Each change is made in place: the rewritten file is what becomes of its entries, in their order. */
  lemma RewriteIs(es: seq<Entry>, changes: map<string, string>)
    ensures Rewrite(es, changes, {}) == InPlace(es, changes, |es|)
  {
    RewriteFrom(es, changes, 0);
    assert es[0..] == es && Done(es, changes, 0) == {};
    assert InPlace(es, changes, 0) + Rewrite(es, changes, {}) == Rewrite(es, changes, {});
  }

  /** What is added: the new line of each changed variable that has a value and no entry, in order of name. */
  ghost function Missing(es: seq<Entry>, changes: map<string, string>, keys: seq<string>): seq<Entry> {
    if keys == [] then []
    else
      var k := keys[0];
      (if k in changes && changes[k] != "" && forall i: nat | i < |es| :: es[i].key != k then [LineEntry(k, changes[k])] else [])
      + Missing(es, changes, keys[1..])
  }

  lemma {:induction false} WrittenIs(es: seq<Entry>, changes: map<string, string>, k: string)
    ensures k in Written(es, changes) <==> k in changes && changes[k] != "" && exists i: nat :: i < |es| && es[i].key == k
  {
    if es != [] {
      WrittenIs(es[1..], changes, k);
      if i: nat :| i < |es| && es[i].key == k { assert i > 0 ==> es[1..][i - 1].key == k; }
      if i: nat :| i < |es[1..]| && es[1..][i].key == k { assert es[i + 1].key == k; }
    }
  }

  lemma {:induction false} AddedIs(es: seq<Entry>, changes: map<string, string>, keys: seq<string>)
    ensures Added(keys, changes, Written(es, changes)) == Missing(es, changes, keys)
  {
    if keys != [] {
      AddedIs(es, changes, keys[1..]);
      WrittenIs(es, changes, keys[0]);
    }
  }

  /** The merge as a whole: what becomes of each entry, in its place, and then
      the variables the file lacks, in order of name. */
  lemma MergedInPlace(read: Reader, file: string, changes: map<string, string>, keys: seq<string>)
    ensures var es := Entries(read, file);
            MergedEntries(read, file, changes, keys) ==
              Terminate(InPlace(es, changes, |es|), Missing(es, changes, keys) != []) + Missing(es, changes, keys)
  {
    RewriteIs(Entries(read, file), changes);
    AddedIs(Entries(read, file), changes, keys);
  }

  /** In the words of the file: an entry that assigns a changed variable,
      exported or not, is replaced by its new line if it is the first that does
      and the variable has a value, and otherwise goes; one that assigns no
      changed variable stays as it is. */
  lemma AssignmentReplaced(file: string, changes: map<string, string>, i: nat, k: string)
    requires ValidChanges(changes) && i < |Entries(KeyOf, file)| && k in changes
    ensures var es := Entries(KeyOf, file);
            && (Assigns(es[i].text, k) ==>
                  Becomes(es, changes, i) ==
                    if changes[k] != "" && forall j: nat | j < i :: !Assigns(es[j].text, k) then [LineEntry(k, changes[k])] else [])
            && ((forall j | j in changes :: !Assigns(es[i].text, j)) ==> Becomes(es, changes, i) == [es[i]])
  {
    var es := Entries(KeyOf, file);
    EntriesWellSplit(KeyOf, file);
    forall j: nat | j < |es| ensures es[j].key == k <==> Assigns(es[j].text, k) {
      assert es[j] == Keyed(KeyOf, es[j].text) && Writable(k, changes[k]);
      KeyOfIs(es[j].text, k);
    }
    if es[i].key in changes {
      assert es[i] == Keyed(KeyOf, es[i].text) && Writable(es[i].key, changes[es[i].key]);
      KeyOfIs(es[i].text, es[i].key);
    }
  }

  /** A line is the name, an equals sign and the value, in double quotes exactly
      when the value has white space, a comment character or a single quote. */
  lemma LineForm(k: string, v: string)
    ensures Line(k, v) ==
            if exists c | c in v :: c in {' ', '\t', '#', ';', '\''} then k + "=" + "\"" + v + "\"" + "\n" else k + "=" + v + "\n"
  {
    assert " \t#;'" == [' ', '\t', '#', ';', '\''];
    assert forall c :: c in " \t#;'" <==> c in {' ', '\t', '#', ';', '\''};
    assert NeedsQuotes(v) <==> exists c | c in v :: c in " \t#;'";
  }
}
