/** Merging the same changes twice. The second merge changes nothing exactly
    when the first did not run a line it added into an entry that goes on. */
module BootEditAgain {
  import opened Strings
  import opened BootEdit
  import opened BootEditProofs

  // ---- reading an entry that goes on

  lemma {:induction false} RightKeeps(s: string, i: nat)
    requires i < |s| && !IsSpace(s[i])
    ensures i < |TrimRight(s)| && TrimRight(s)[i] == s[i]
  {
    if IsSpace(s[|s| - 1]) { RightKeeps(s[..|s| - 1], i); }
  }

  lemma {:induction false} LeftKeeps(s: string, i: nat)
    requires i < |s| && !IsSpace(s[i])
    ensures s[i] in TrimLeft(s)
  {
    if IsSpace(s[0]) { LeftKeeps(s[1..], i - 1); }
  }

  lemma TrimKeeps(s: string, i: nat)
    requires i < |s| && !IsSpace(s[i])
    ensures s[i] in Trim(s)
  {
    RightKeeps(s, i);
    LeftKeeps(TrimRight(s), i);
  }

  /** What follows a string that is not blank, trimmed on the right, either goes away or stays behind it. */
  lemma {:induction false} RightOf(s: string, t: string)
    ensures TrimRight(s + t) == if TrimRight(t) == "" then TrimRight(s) else s + TrimRight(t)
  {
    if t == "" {
      assert s + t == s;
    } else {
      var n := |t| - 1;
      assert (s + t)[..|s + t| - 1] == s + t[..n];
      if IsSpace(t[n]) { RightOf(s, t[..n]); }
    }
  }

  lemma {:induction false} LeftOf(s: string, u: string)
    requires TrimLeft(s) != ""
    ensures TrimLeft(s + u) == TrimLeft(s) + u
  {
    if IsSpace(s[0]) {
      assert (s + u)[1..] == s[1..] + u;
      LeftOf(s[1..], u);
    }
  }

  lemma {:induction false} EolGone(s: string)
    ensures TrimEol(s) <= s && TrimRight(s) == TrimRight(TrimEol(s))
  {
    if s != "" && s[|s| - 1] in {'\r', '\n'} { EolGone(s[..|s| - 1]); }
  }

  lemma {:induction false} EndStays(s: string)
    requires s != "" && !IsSpace(s[|s| - 1])
    ensures TrimLeft(s) != "" && TrimLeft(s)[|TrimLeft(s)| - 1] == s[|s| - 1]
  {
    if IsSpace(s[0]) { EndStays(s[1..]); }
  }

  /** Trimmed, an entry that goes on ends in its backslash, and what follows it comes after that. */
  lemma OpenTrimmed(e: string, t: string)
    requires Continues(e)
    ensures EndsWith(Trim(e), '\\') && (Trim(e + t) == Trim(e) || Trim(e) < Trim(e + t))
  {
    var w := TrimEol(e);
    EolGone(e);
    assert TrimRight(w) == w;
    EndStays(w);
    assert TrimLeft(w) == Trim(e);
    RightOf(e, t);
    if TrimRight(t) != "" {
      var u := e[|w|..] + TrimRight(t);
      assert e + TrimRight(t) == w + u;
      LeftOf(w, u);
    }
  }

  lemma {:induction false} IndexOfBefore(q: string, u: string, c: char)
    ensures IndexOf(q, c) < |q| ==> IndexOf(q + u, c) == IndexOf(q, c)
    ensures IndexOf(q, c) == |q| ==> IndexOf(q + u, c) >= |q|
  {
    if q != "" {
      assert (q + u)[1..] == q[1..] + u;
      if q[0] != c { IndexOfBefore(q[1..], u, c); }
    }
  }

  lemma OpenAssigns(s: string, s2: string)
    requires EndsWith(s, '\\') && s < s2
    ensures EXPORT <= s <==> EXPORT <= s2
    ensures EXPORT <= s ==> EndsWith(s[|EXPORT|..], '\\') && s[|EXPORT|..] < s2[|EXPORT|..]
  {
    assert s2[|s| - 1] == '\\' && forall i | 0 <= i < |EXPORT| :: EXPORT[i] != '\\';
  }

  /** The name before the equals sign, "" when there is none. */
  function CutKey(s: string): string { if IndexOf(s, '=') == |s| then "" else Trim(s[..IndexOf(s, '=')]) }

  /** With more after a backslash that comes before any equals sign, the backslash is in the name. */
  lemma BackslashInKey(q: string, u: string)
    requires EndsWith(q, '\\') && IndexOf(q, '=') == |q| && IndexOf(q + u, '=') < |q + u|
    ensures !Name(CutKey(q + u))
  {
    IndexOfBefore(q, u, '=');
    var front := (q + u)[..IndexOf(q + u, '=')];
    assert front[|q| - 1] == '\\' && !IsSpace('\\');
    TrimKeeps(front, |q| - 1);
    NoBackslash(Trim(front));
  }

  lemma NoBackslash(k: string)
    ensures '\\' in k ==> !Name(k)
  {
    if '\\' in k {
      var i :| 0 <= i < |k| && k[i] == '\\';
      assert !NameChar(k[i]);
    }
  }

  lemma SameCut(q: string, u: string)
    requires IndexOf(q, '=') < |q|
    ensures CutKey(q + u) == CutKey(q)
  {
    IndexOfBefore(q, u, '=');
    assert (q + u)[..IndexOf(q, '=')] == q[..IndexOf(q, '=')];
  }

  lemma OpenKey(q: string, r: string)
    requires EndsWith(q, '\\') && q < r
    ensures CutKey(r) == CutKey(q) || !Name(CutKey(r))
  {
    var u := r[|q|..];
    assert r == q + u;
    if IndexOf(q, '=') < |q| {
      SameCut(q, u);
    } else if IndexOf(r, '=') < |r| {
      BackslashInKey(q, u);
    }
  }

  /** An entry that goes on sets the same variable with more after it, or nothing that could be a variable. */
  lemma OpenKeyOf(e: string, t: string)
    requires Continues(e)
    ensures KeyOf(e + t) == KeyOf(e) || !Name(KeyOf(e + t))
  {
    OpenTrimmed(e, t);
    var s, s2 := Trim(e), Trim(e + t);
    if s != s2 && s[0] != '#' && s[0] != ';' {
      OpenAssigns(s, s2);
      OpenKey(Assignment(e), Assignment(e + t));
    }
  }

  /** What is asked of the way variables are read for entries that go on. */
  ghost predicate ReadsOpen(read: Reader) {
    forall e, t | Continues(e) :: read(e + t) == read(e) || !Name(read(e + t))
  }

  lemma KeyOfReadsOpen()
    ensures ReadsOpen(KeyOf)
  {
    forall e, t | Continues(e) ensures KeyOf(e + t) == KeyOf(e) || !Name(KeyOf(e + t)) { OpenKeyOf(e, t); }
  }

  // ---- what a swallowed line costs

  /** One line, with something in it, that does not go on. */
  predicate OneLine(line: string) { Closed(line) && LineEnd(line, 0) == |line| && TrimEol(line) != "" }

  lemma LineIsOne(k: string, v: string)
    requires Writable(k, v) && v != ""
    ensures OneLine(Line(k, v))
  {
    LineClosed(k, v);
    LineIs(k, v);
    var s := k + "=" + Quoted(v);
    assert (s + "\n")[..|s|] == s;
    LineAssigns(k, v);
    LineEndOnce(k, v);
  }

  lemma LineEndOnce(k: string, v: string)
    requires Writable(k, v) && v != ""
    ensures LineEnd(Line(k, v), 0) == |Line(k, v)| && TrimEol(Line(k, v)) != ""
  {
    LineIs(k, v);
    var line, q := Line(k, v), Quoted(v);
    assert NameChar(k[0]);
    forall i | 0 <= i < |line| - 1 ensures line[i] != '\n' {
      if i < |k| {
        assert line[i] == k[i] && NameChar(k[i]);
      } else if i > |k| {
        assert line[i] == q[i - |k| - 1];
        if NeedsQuotes(v) {
          assert 1 <= i - |k| - 1 < |q| - 1 ==> q[i - |k| - 1] == v[i - |k| - 2] && PlainChar(v[i - |k| - 2]);
        } else {
          assert PlainChar(v[i - |k| - 1]);
        }
      }
    }
    LineEndIs(line, 0, |line|);
    EolKeeps(line, 0);
  }

  lemma {:induction false} EolKeeps(s: string, i: nat)
    requires i < |s| && s[i] !in {'\r', '\n'}
    ensures i < |TrimEol(s)| && TrimEol(s)[i] == s[i]
  {
    if s[|s| - 1] in {'\r', '\n'} { EolKeeps(s[..|s| - 1], i); }
  }

  lemma {:induction false} EolOf(e: string, line: string)
    requires TrimEol(line) != ""
    ensures TrimEol(e + line) == e + TrimEol(line)
  {
    if line[|line| - 1] in {'\r', '\n'} {
      assert (e + line)[..|e + line| - 1] == e + line[..|line| - 1];
      EolOf(e, line[..|line| - 1]);
    }
  }

  lemma {:induction false} JoinedEnd(e: string, line: string, from: nat)
    requires from < |e| && EntryEnd(e, from) == |e| && EndsWith(e, '\n') && Continues(e) && OneLine(line)
    ensures EntryEnd(e + line, from) == |e + line|
    decreases |e| - from
  {
    var z, m := e + line, LineEnd(e, from);
    LineEndAt(e, from);
    LineEndIs(z, from, m);
    assert z[..m] == e[..m];
    if m < |e| {
      JoinedEnd(e, line, m);
    } else {
      assert e[..m] == e;
      LineEndAt(line, 0);
      forall i | |e| <= i < |z| - 1 ensures z[i] != '\n' { assert z[i] == line[i - |e|]; }
      LineEndIs(z, |e|, |z|);
    }
  }

  /** An entry that goes on and the line it swallows are one closed entry. */
  lemma Joined(e: string, line: string)
    requires Whole(e) && EndsWith(e, '\n') && Continues(e) && OneLine(line)
    ensures Closed(e + line)
  {
    JoinedEnd(e, line, 0);
    EolOf(e, line);
    assert (e + line)[|e + line| - 1] == line[|line| - 1];
  }

  lemma {:induction false} AddedFirst(keys: seq<string>, changes: map<string, string>, written: set<string>)
    requires Added(keys, changes, written) != []
    ensures var a := Added(keys, changes, written)[0];
            a.key in keys && a.key in changes && changes[a.key] != "" && a.key !in written && a == LineEntry(a.key, changes[a.key])
  {
    if !(keys[0] in changes && changes[keys[0]] != "" && keys[0] !in written) { AddedFirst(keys[1..], changes, written); }
  }

  lemma {:induction false} AddsIt(keys: seq<string>, changes: map<string, string>, written: set<string>, k: string)
    requires k in keys && k in changes && changes[k] != "" && k !in written
    ensures Added(keys, changes, written) != []
  {
    if keys[0] != k { AddsIt(keys[1..], changes, written, k); }
  }

  lemma {:induction false} NotWritten(es: seq<Entry>, changes: map<string, string>, k: string)
    requires Settings(es, k) == []
    ensures k !in Written(es, changes)
  {
    if es != [] {
      assert es[0].key != k;
      NotWritten(es[1..], changes, k);
    }
  }

  /** A variable no entry sets may be taken as written. */
  lemma {:induction false} RewriteUnused(es: seq<Entry>, changes: map<string, string>, written: set<string>, k: string)
    requires Settings(es, k) == []
    ensures Rewrite(es, changes, written + {k}) == Rewrite(es, changes, written)
  {
    if es != [] {
      assert es[0].key != k;
      assert written + {k} + {es[0].key} == written + {es[0].key} + {k};
      RewriteUnused(es[1..], changes, written, k);
      RewriteUnused(es[1..], changes, written + {es[0].key}, k);
    }
  }

  lemma SettingsAround(xs: seq<Entry>, e: Entry, ys: seq<Entry>, k: string)
    ensures Settings(xs + [e] + ys, k) == Settings(xs, k) + (if e.key == k then [e] else []) + Settings(ys, k)
  {
    SettingsAppend(xs + [e], ys, k);
    SettingsAppend(xs, [e], k);
    assert Settings([e], k) == if e.key == k then [e] else [];
  }

  /** With one of the lines meant swallowed, each other variable is set as it
      was meant to be, and that one nowhere. */
  lemma SwallowedSettings(front: seq<Entry>, last: Entry, a: Entry, rest: seq<Entry>, z: Entry, k: string, meant: seq<Entry>)
    requires last.key != k && z.key != k && Settings(front + [last] + ([a] + rest), k) == meant && |meant| <= 1
    ensures Settings(front + [z] + rest, k) == if a.key == k then [] else meant
  {
    SettingsAround(front, last, [a] + rest, k);
    SettingsAround(front, z, rest, k);
    SettingsAround([], a, rest, k);
    assert [] + [a] + rest == [a] + rest;
    var xs, ys := Settings(front, k), Settings(rest, k);
    assert Settings([a] + rest, k) == (if a.key == k then [a] else []) + ys;
    assert xs + [] + ys == xs + ys;
    assert a.key == k ==> |meant| == |xs| + 1 + |ys|;
  }

  /** Every changed variable is set once, to its value, or nowhere. */
  predicate SetsAll(es: seq<Entry>, changes: map<string, string>) {
    forall k | k in changes :: Settings(es, k) == if changes[k] == "" then [] else [LineEntry(k, changes[k])]
  }

  /** Every changed variable but one, which is set nowhere. */
  predicate SetsAllBut(es: seq<Entry>, changes: map<string, string>, lost: string) {
    forall k | k in changes :: Settings(es, k) == if k == lost || changes[k] == "" then [] else [LineEntry(k, changes[k])]
  }

  lemma LostLeftAlone(es: seq<Entry>, changes: map<string, string>, k: string)
    requires SetsAllBut(es, changes, k) && k in changes && changes[k] != ""
    ensures Rewrite(es, changes, {}) == es
  {
    assert Settings(es, k) == [];
    forall j | j in changes ensures SettledAt(es, changes, {k}, j) {}
    RewriteSettled(es, changes, {k});
    RewriteUnused(es, changes, {}, k);
    assert {} + {k} == {k};
  }

  lemma LostAdded(es: seq<Entry>, changes: map<string, string>, keys: seq<string>, k: string)
    requires Settings(es, k) == [] && k in changes && changes[k] != "" && k in keys
    ensures Concat(Added(keys, changes, Written(es, changes))) != ""
  {
    var written := Written(es, changes);
    NotWritten(es, changes, k);
    AddsIt(keys, changes, written, k);
    AddedFirst(keys, changes, written);
    var added := Added(keys, changes, written);
    LineIs(added[0].key, changes[added[0].key]);
    assert |Concat(added)| >= |added[0].text| > 0;
  }

  /** The entries of a merge that swallowed a line: they are left alone by the
      next merge, which adds the swallowed variable again. */
  lemma SwallowedAgain(read: Reader, es: seq<Entry>, changes: map<string, string>, keys: seq<string>, k: string)
    requires SetsAllBut(es, changes, k) && k in changes && changes[k] != "" && k in keys
    requires Entries(read, Concat(es)) == es
    ensures MergeText(read, Concat(es), changes, keys) != Concat(es) && !SetsAll(es, changes)
  {
    assert Settings(es, k) == [];
    LostLeftAlone(es, changes, k);
    LostAdded(es, changes, keys, k);
  }

  lemma SwallowedText(front: seq<Entry>, last: Entry, a: Entry, rest: seq<Entry>, z: Entry)
    requires z.text == last.text + a.text
    ensures Concat(front + [z] + rest) == Concat(front + [last] + ([a] + rest))
  {
    JoinAround(front, z, rest);
    JoinAround(front, last, [a] + rest);
    assert Concat([a] + rest) == a.text + Concat(rest) by { assert ([a] + rest)[1..] == rest; }
  }

  /** What a body whose last entry goes on and the lines after it read as: the
      last entry with the first line in it, and the other lines. */
  function Swallowed(read: Reader, body: seq<Entry>, added: seq<Entry>): seq<Entry>
    requires body != [] && added != []
  {
    var last := WithNewline(body[|body| - 1]);
    body[..|body| - 1] + [Keyed(read, last.text + added[0].text)] + added[1..]
  }

  /** A body whose last entry goes on, and the lines to be added after it. */
  ghost predicate Swallowing(read: Reader, body: seq<Entry>, added: seq<Entry>, changes: map<string, string>) {
    && body != [] && WellSplit(body) && AllKeyed(read, body) && Continues(body[|body| - 1].text) && body[|body| - 1].key !in changes
    && added != [] && OneLine(added[0].text) && AllClosed(added) && AllKeyed(read, added)
  }

  lemma SwallowedReadsBack(read: Reader, body: seq<Entry>, added: seq<Entry>, changes: map<string, string>)
    requires Reads(read) && Swallowing(read, body, added, changes)
    ensures var now := Swallowed(read, body, added);
            && Entries(read, Concat(now)) == now
            && Concat(now) == Concat(Terminate(body, true) + added)
  {
    var n := |body| - 1;
    var front, last, a, rest := body[..n], WithNewline(body[n]), added[0], added[1..];
    NewlineKeeps(read, body[n]);
    Joined(last.text, a.text);
    var z := Keyed(read, last.text + a.text);
    AroundWellSplit(read, front, z, rest);
    SplitsBack(read, front + [z] + rest);
    SwallowedText(front, last, a, rest, z);
    assert added == [a] + rest;
  }

  lemma SwallowedKey(read: Reader, e: Entry, line: string, changes: map<string, string>)
    requires Reads(read) && ReadsOpen(read) && ValidChanges(changes)
    requires Whole(e.text) && e == Keyed(read, e.text) && Continues(e.text) && e.key !in changes
    ensures read(WithNewline(e).text + line) !in changes
  {
    NewlineKeeps(read, e);
    var f := WithNewline(e);
    assert read(f.text + line) == read(f.text) || !Name(read(f.text + line));
  }

  lemma SwallowedSets(read: Reader, body: seq<Entry>, added: seq<Entry>, changes: map<string, string>, k: string)
    requires Reads(read) && ReadsOpen(read) && ValidChanges(changes) && Swallowing(read, body, added, changes)
    requires k in changes
    requires Settings(Terminate(body, true) + added, k) == if changes[k] == "" then [] else [LineEntry(k, changes[k])]
    ensures Settings(Swallowed(read, body, added), k) == if k == added[0].key || changes[k] == "" then [] else [LineEntry(k, changes[k])]
  {
    var n := |body| - 1;
    var front, last, a, rest := body[..n], WithNewline(body[n]), added[0], added[1..];
    SwallowedKey(read, body[n], a.text, changes);
    assert added == [a] + rest;
    SwallowedSettings(front, last, a, rest, Keyed(read, last.text + a.text), k, Settings(Terminate(body, true) + added, k));
  }

  /** The entries kept and the lines added when a line is swallowed. */
  lemma MergeSwallowing(read: Reader, file: string, changes: map<string, string>, keys: seq<string>)
    requires Reads(read) && ValidChanges(changes) && Swallows(read, file, changes, keys)
    ensures var es := Entries(read, file);
            var added := Added(keys, changes, Written(es, changes));
            && Swallowing(read, Rewrite(es, changes, {}), added, changes)
            && added[0].key in keys && added[0].key in changes && changes[added[0].key] != ""
  {
    var es := Entries(read, file);
    var written := Written(es, changes);
    EntriesWellSplit(read, file);
    RewriteWellSplit(es, changes, {});
    RewriteKeyed(read, es, changes, {});
    AddedClosed(read, keys, changes, written);
    AddedFirst(keys, changes, written);
    var k := Added(keys, changes, written)[0].key;
    LineIsOne(k, changes[k]);
  }

  lemma SwallowedLost(read: Reader, file: string, changes: map<string, string>, keys: seq<string>, body: seq<Entry>, added: seq<Entry>)
    requires Reads(read) && ReadsOpen(read) && ValidChanges(changes) && SortedKeys(keys, changes.Keys)
    requires Swallowing(read, body, added, changes) && MergedEntries(read, file, changes, keys) == Terminate(body, true) + added
    ensures SetsAllBut(Swallowed(read, body, added), changes, added[0].key)
  {
    var now := Swallowed(read, body, added);
    forall k | k in changes
      ensures Settings(now, k) == if k == added[0].key || changes[k] == "" then [] else [LineEntry(k, changes[k])]
    {
      MergeSetsEachOnce(read, file, changes, keys, k);
      SwallowedSets(read, body, added, changes, k);
    }
  }

  /** A merge that runs a line into an entry that goes on leaves its variable
      unset, and the next merge adds the line again. */
  lemma SwallowsNotIdempotent(read: Reader, file: string, changes: map<string, string>, keys: seq<string>)
    requires Reads(read) && ReadsOpen(read) && ValidChanges(changes) && SortedKeys(keys, changes.Keys) && Swallows(read, file, changes, keys)
    ensures var once := MergeText(read, file, changes, keys);
            MergeText(read, once, changes, keys) != once && !SetsAll(Entries(read, once), changes)
  {
    var es := Entries(read, file);
    var body, added := Rewrite(es, changes, {}), Added(keys, changes, Written(es, changes));
    MergeSwallowing(read, file, changes, keys);
    SwallowedLost(read, file, changes, keys, body, added);
    SwallowedReadsBack(read, body, added, changes);
    MergedEntriesJoin(read, file, changes, keys);
    SwallowedAgain(read, Swallowed(read, body, added), changes, keys, added[0].key);
  }

  /** Merging again changes nothing, and the result read back sets every changed
      variable as asked, exactly when no line was run into an entry before it. */
  lemma IdempotentExactly(file: string, changes: map<string, string>, keys: seq<string>)
    requires ValidChanges(changes) && SortedKeys(keys, changes.Keys)
    ensures var once := MergeText(KeyOf, file, changes, keys);
            && (MergeText(KeyOf, once, changes, keys) == once <==> !Swallows(KeyOf, file, changes, keys))
            && (SetsAll(Entries(KeyOf, once), changes) <==> !Swallows(KeyOf, file, changes, keys))
  {
    KeyOfReads();
    KeyOfReadsOpen();
    if Swallows(KeyOf, file, changes, keys) {
      SwallowsNotIdempotent(KeyOf, file, changes, keys);
    } else {
      MergeIdempotent(KeyOf, file, changes, keys);
      MergeReadsBack(KeyOf, file, changes, keys);
      forall k | k in changes { MergeSetsEachOnce(KeyOf, file, changes, keys, k); }
    }
  }
}
