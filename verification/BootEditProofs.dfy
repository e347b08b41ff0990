/** Merge is exact and idempotent: reading its result back as entries shows each
    changed variable once, and everything else as it was. */
module BootEditProofs {
  import opened Strings
  import opened BootEdit

  // ---- splitting and joining

  lemma {:induction false} EntriesJoin(read: Reader, text: string)
    ensures Concat(Entries(read, text)) == text
    decreases |text|
  {
    if text != "" {
      EntriesJoin(read, text[EntryEnd(text, 0)..]);
    }
  }

  /** One entry, whatever follows it. */
  predicate Whole(e: string) { e != "" && EntryEnd(e, 0) == |e| }

  /** One entry that nothing after it can join. */
  predicate Closed(e: string) { Whole(e) && EndsWith(e, '\n') && !Continues(e) }

  lemma {:induction false} LineEndAt(text: string, from: nat)
    requires from < |text|
    ensures var n := LineEnd(text, from);
            (forall i | from <= i < n - 1 :: text[i] != '\n') && (n < |text| ==> text[n - 1] == '\n')
    decreases |text| - from
  {
    if text[from] != '\n' && from + 1 < |text| { LineEndAt(text, from + 1); }
  }

  lemma {:induction false} LineEndIs(text: string, from: nat, n: nat)
    requires from < n <= |text| && (forall i | from <= i < n - 1 :: text[i] != '\n')
    requires n == |text| || text[n - 1] == '\n'
    ensures LineEnd(text, from) == n
    decreases n - from
  {
    if from + 1 < n { LineEndIs(text, from + 1, n); }
  }

  lemma {:induction false} EntryEndPrefix(text: string, from: nat)
    requires from < |text|
    ensures var n := EntryEnd(text, from);
            && EntryEnd(text[..n], from) == n
            && (n < |text| ==> EndsWith(text[..n], '\n') && !Continues(text[..n]))
    decreases |text| - from
  {
    var n, m := EntryEnd(text, from), LineEnd(text, from);
    LineEndAt(text, from);
    if m == n {
      LineEndIs(text[..n], from, n);
    } else {
      EntryEndPrefix(text, m);
      LineEndIs(text[..n], from, m);
      assert text[..n][..m] == text[..m];
    }
  }

  lemma {:induction false} EntryEndExtends(e: string, rest: string, from: nat)
    requires from < |e| && EntryEnd(e, from) == |e| && EndsWith(e, '\n')
    ensures !Continues(e) ==> EntryEnd(e + rest, from) == |e|
    ensures Continues(e) && rest != "" ==> EntryEnd(e + rest, from) > |e|
    decreases |e| - from
  {
    var m := LineEnd(e, from);
    LineEndAt(e, from);
    LineEndIs(e + rest, from, m);
    assert (e + rest)[..m] == e[..m];
    if m < |e| {
      EntryEndExtends(e, rest, m);
    } else {
      assert e[..m] == e;
    }
  }

  lemma ClosedFirst(read: Reader, e: string, rest: string)
    requires Closed(e)
    ensures Entries(read, e + rest) == [Keyed(read, e)] + Entries(read, rest)
  {
    EntryEndExtends(e, rest, 0);
    assert (e + rest)[..|e|] == e && (e + rest)[|e|..] == rest;
  }

  /** A list of entries that can be told apart again once joined. */
  predicate WellSplit(es: seq<Entry>) {
    forall i | 0 <= i < |es| :: Whole(es[i].text) && (i < |es| - 1 ==> Closed(es[i].text))
  }

  predicate AllClosed(es: seq<Entry>) { forall i | 0 <= i < |es| :: Closed(es[i].text) }

  /** Every entry carries the variable its text sets. */
  predicate AllKeyed(read: Reader, es: seq<Entry>) { forall i | 0 <= i < |es| :: es[i] == Keyed(read, es[i].text) }

  lemma {:induction false} EntriesWellSplit(read: Reader, text: string)
    ensures WellSplit(Entries(read, text)) && AllKeyed(read, Entries(read, text))
    decreases |text|
  {
    if text != "" {
      EntryEndPrefix(text, 0);
      EntriesWellSplit(read, text[EntryEnd(text, 0)..]);
    }
  }

  /** Joining and splitting again gives the same entries back. */
  lemma {:induction false} SplitsBack(read: Reader, es: seq<Entry>)
    requires WellSplit(es) && AllKeyed(read, es)
    ensures Entries(read, Concat(es)) == es
  {
    if es != [] {
      var e := es[0].text;
      assert WellSplit(es[1..]) && AllKeyed(read, es[1..]);
      SplitsBack(read, es[1..]);
      if |es| == 1 {
        assert Concat(es) == e;
        assert e[..|e|] == e && e[|e|..] == "";
      } else {
        ClosedFirst(read, e, Concat(es[1..]));
      }
    }
  }

  lemma {:induction false} ConcatAppend(xs: seq<Entry>, ys: seq<Entry>)
    ensures Concat(xs + ys) == Concat(xs) + Concat(ys)
  {
    if xs == [] {
      assert xs + ys == ys;
    } else {
      assert (xs + ys)[1..] == xs[1..] + ys;
      ConcatAppend(xs[1..], ys);
    }
  }

  lemma DropCons(e: Entry, es: seq<Entry>, n: nat)
    requires 1 <= n <= |es| + 1
    ensures ([e] + es)[n..] == es[n - 1..]
  {
  }

  lemma Associate(xs: seq<Entry>, ys: seq<Entry>, zs: seq<Entry>)
    ensures (xs + ys) + zs == xs + (ys + zs)
  {
  }

  lemma ConcatHead(es: seq<Entry>, text: string)
    requires es != []
    ensures Concat(es) + text == es[0].text + (Concat(es[1..]) + text)
  {
  }

  lemma {:induction false} EntriesAfterClosed(read: Reader, closed: seq<Entry>, text: string)
    requires AllClosed(closed)
    ensures |closed| <= |Entries(read, Concat(closed) + text)| && Entries(read, Concat(closed) + text)[|closed|..] == Entries(read, text)
    decreases |closed|
  {
    if closed == [] {
      assert Concat(closed) + text == text;
    } else {
      var after := Concat(closed[1..]) + text;
      EntriesAfterClosed(read, closed[1..], text);
      ClosedFirst(read, closed[0].text, after);
      ConcatHead(closed, text);
      DropCons(Keyed(read, closed[0].text), Entries(read, after), |closed|);
    }
  }

  /** An entry that goes on swallows what is added after it. */
  lemma OpenSwallows(read: Reader, closed: seq<Entry>, e: string, rest: string)
    requires AllClosed(closed)
    requires Whole(e) && EndsWith(e, '\n') && Continues(e) && rest != ""
    ensures var es := Entries(read, Concat(closed) + (e + rest)); |es| > |closed| && es[|closed|].text != e
  {
    var text := e + rest;
    EntriesAfterClosed(read, closed, text);
    EntryEndExtends(e, rest, 0);
    assert Entries(read, text)[0].text == text[..EntryEnd(text, 0)];
    assert Entries(read, Concat(closed) + text)[|closed|..][0] == Entries(read, text)[0];
  }

  // ---- lines

  lemma {:induction false} TrimLeftPlain(s: string)
    requires s != "" && !IsSpace(s[0])
    ensures TrimLeft(s) == s
  {
  }

  lemma {:induction false} TrimmedEnds(v: string)
    requires Trim(v) == v && v != ""
    ensures !IsSpace(v[0]) && !IsSpace(v[|v| - 1])
  {
    TrimShorter(v);
    LeftShorter(TrimRight(v));
  }

  lemma {:induction false} TrimShorter(s: string)
    ensures |TrimRight(s)| <= |s|
    ensures s != "" && IsSpace(s[|s| - 1]) ==> |TrimRight(s)| < |s|
  {
    if s != "" && IsSpace(s[|s| - 1]) { TrimShorter(s[..|s| - 1]); }
  }

  lemma {:induction false} LeftShorter(s: string)
    ensures |TrimLeft(s)| <= |s|
    ensures s != "" && IsSpace(s[0]) ==> |TrimLeft(s)| < |s|
  {
    if s != "" && IsSpace(s[0]) { LeftShorter(s[1..]); }
  }

  lemma TrimNewline(s: string)
    ensures Trim(s + "\n") == Trim(s)
    ensures KeyOf(s + "\n") == KeyOf(s)
  {
    assert (s + "\n")[..|s|] == s;
  }

  lemma {:induction false} IndexOfIs(s: string, c: char, i: nat)
    requires i < |s| && s[i] == c && forall j | 0 <= j < i :: s[j] != c
    ensures IndexOf(s, c) == i
  {
    if i > 0 { IndexOfIs(s[1..], c, i - 1); }
  }

  lemma NoEarlierEquals(k: string, rest: string)
    requires Name(k)
    ensures IndexOf(k + "=" + rest, '=') == |k|
  {
    var s := k + "=" + rest;
    forall j | 0 <= j < |k| ensures s[j] != '=' { assert s[j] == k[j] && NameChar(k[j]); }
    IndexOfIs(s, '=', |k|);
  }

  function Quoted(v: string): string { if NeedsQuotes(v) then "\"" + v + "\"" else v }

  lemma LineIs(k: string, v: string)
    ensures Line(k, v) == k + "=" + Quoted(v) + "\n"
  {
    assert NeedsQuotes(v) ==> k + "=\"" + v + "\"\n" == k + "=" + ("\"" + v + "\"") + "\n";
  }

  lemma NameTrimmed(k: string)
    requires Name(k)
    ensures Trim(k) == k && !IsSpace(k[0]) && k[0] != '#' && k[0] != ';' && k[0] != 'e'
  {
    assert NameChar(k[0]) && NameChar(k[|k| - 1]);
    assert TrimRight(k) == k;
    TrimLeftPlain(k);
  }

  lemma LineTrimmed(k: string, v: string)
    requires Writable(k, v) && v != ""
    ensures Trim(Line(k, v)) == k + "=" + Quoted(v)
  {
    LineIs(k, v);
    TrimmedEnds(v);
    NameTrimmed(k);
    var s := k + "=" + Quoted(v);
    TrimNewline(s);
    assert s[|s| - 1] == Quoted(v)[|Quoted(v)| - 1];
    assert TrimRight(s) == s;
    assert s[0] == k[0];
    TrimLeftPlain(s);
  }

  /** The line written for a variable sets that variable. */
  lemma LineAssigns(k: string, v: string)
    requires Writable(k, v) && v != ""
    ensures Assignment(Line(k, v)) == k + "=" + Quoted(v)
    ensures KeyOf(Line(k, v)) == k
  {
    LineTrimmed(k, v);
    NameTrimmed(k);
    var s := k + "=" + Quoted(v);
    assert s[0] == k[0] && EXPORT[0] == 'e';
    NoEarlierEquals(k, Quoted(v));
    assert s[..|k|] == k;
  }

  /** The reader gets back exactly the value that was asked for. */
  lemma LineReadsBack(k: string, v: string)
    requires Writable(k, v) && v != ""
    ensures ValueOf(Line(k, v)) == v
  {
    LineAssigns(k, v);
    TrimmedEnds(v);
    NoEarlierEquals(k, Quoted(v));
    var s, q := k + "=" + Quoted(v), Quoted(v);
    assert s[|k| + 1..] == q;
    assert TrimRight(q) == q;
    TrimLeftPlain(q);
    if NeedsQuotes(v) {
      assert q[1..|q| - 1] == v;
    } else {
      assert PlainChar(v[0]);
      assert v[0] !in " \t#;'";
    }
  }

  lemma {:induction false} LineClosed(k: string, v: string)
    requires Writable(k, v) && v != ""
    ensures Closed(Line(k, v))
  {
    LineIs(k, v);
    var s, q := k + "=" + Quoted(v), Quoted(v);
    var line := s + "\n";
    forall i | 0 <= i < |s|
      ensures s[i] != '\n' && s[i] != '\r' && s[i] != '\\'
    {
      if i < |k| {
        assert s[i] == k[i] && NameChar(k[i]);
      } else if i > |k| {
        assert s[i] == q[i - |k| - 1];
        if NeedsQuotes(v) {
          assert 1 <= i - |k| - 1 < |q| - 1 ==> q[i - |k| - 1] == v[i - |k| - 2] && PlainChar(v[i - |k| - 2]);
        } else {
          assert PlainChar(v[i - |k| - 1]);
        }
      }
    }
    LineEndIs(line, 0, |line|);
    assert line[..|s|] == s;
    assert TrimEol(line) == TrimEol(s) == s;
  }

  // ---- the merged entries

  /** What the merge asks of the way variables are read: a line it writes sets
      its variable, and a final newline changes no entry's variable. */
  ghost predicate Reads(read: Reader) {
    && (forall k, v | Writable(k, v) && v != "" :: read(Line(k, v)) == k)
    && (forall s :: read(s + "\n") == read(s))
  }

  lemma KeyOfReads()
    ensures Reads(KeyOf)
  {
    forall k, v | Writable(k, v) && v != "" ensures KeyOf(Line(k, v)) == k { LineAssigns(k, v); }
    forall s ensures KeyOf(s + "\n") == KeyOf(s) { TrimNewline(s); }
  }

  lemma ConsWellSplit(e: Entry, es: seq<Entry>)
    requires WellSplit(es) && Whole(e.text) && (es != [] ==> Closed(e.text))
    ensures WellSplit([e] + es)
  {
    var all := [e] + es;
    forall i | 0 <= i < |all|
      ensures Whole(all[i].text) && (i < |all| - 1 ==> Closed(all[i].text))
    {
      if i > 0 { assert all[i] == es[i - 1]; }
    }
  }

  /** Rewriting keeps the entries apart; its last entry is the file's last when
      that one stays, and otherwise nothing can join it. */
  lemma {:induction false} RewriteWellSplit(es: seq<Entry>, changes: map<string, string>, written: set<string>)
    requires WellSplit(es) && ValidChanges(changes)
    ensures var r := Rewrite(es, changes, written);
            && WellSplit(r)
            && (es != [] && es[|es| - 1].key !in changes ==> r != [] && r[|r| - 1] == es[|es| - 1])
            && (es == [] || es[|es| - 1].key in changes ==> AllClosed(r))
  {
    if es != [] {
      var key := es[0].key;
      assert WellSplit(es[1..]);
      if key in changes && key !in written && changes[key] != "" {
        LineClosed(key, changes[key]);
        RewriteWellSplit(es[1..], changes, written + {key});
        ConsWellSplit(LineEntry(key, changes[key]), Rewrite(es[1..], changes, written + {key}));
      } else {
        RewriteWellSplit(es[1..], changes, written);
        if key !in changes { ConsWellSplit(es[0], Rewrite(es[1..], changes, written)); }
      }
    }
  }

  lemma LineKeyed(read: Reader, k: string, v: string)
    requires Reads(read) && Writable(k, v) && v != ""
    ensures LineEntry(k, v) == Keyed(read, Line(k, v)) && Closed(Line(k, v))
  {
    LineClosed(k, v);
  }

  lemma {:induction false} RewriteKeyed(read: Reader, es: seq<Entry>, changes: map<string, string>, written: set<string>)
    requires Reads(read) && AllKeyed(read, es) && ValidChanges(changes)
    ensures AllKeyed(read, Rewrite(es, changes, written))
  {
    if es != [] {
      var key := es[0].key;
      assert AllKeyed(read, es[1..]);
      if key in changes && key !in written && changes[key] != "" {
        LineKeyed(read, key, changes[key]);
        RewriteKeyed(read, es[1..], changes, written + {key});
      } else {
        RewriteKeyed(read, es[1..], changes, written);
      }
    }
  }

  lemma {:induction false} AddedClosed(read: Reader, keys: seq<string>, changes: map<string, string>, written: set<string>)
    requires Reads(read) && ValidChanges(changes)
    ensures AllClosed(Added(keys, changes, written)) && AllKeyed(read, Added(keys, changes, written))
  {
    if keys != [] {
      AddedClosed(read, keys[1..], changes, written);
      if keys[0] in changes && changes[keys[0]] != "" { LineKeyed(read, keys[0], changes[keys[0]]); }
    }
  }

  function WithNewline(e: Entry): Entry { if EndsWith(e.text, '\n') then e else Entry(e.text + "\n", e.key) }

  /** The entries with a final newline put in where something is added after a last line that lacks it. */
  function Terminate(es: seq<Entry>, more: bool): seq<Entry> {
    if more && es != [] then es[..|es| - 1] + [WithNewline(es[|es| - 1])] else es
  }

  /** What the merged file is meant to hold, entry by entry. */
  function MergedEntries(read: Reader, file: string, changes: map<string, string>, keys: seq<string>): seq<Entry> {
    var es := Entries(read, file);
    var added := Added(keys, changes, Written(es, changes));
    Terminate(Rewrite(es, changes, {}), added != []) + added
  }

  lemma ConcatLast(es: seq<Entry>, e: Entry)
    ensures Concat(es + [e]) == Concat(es) + e.text
  {
    ConcatAppend(es, [e]);
    assert Concat([e]) == e.text;
  }

  lemma TerminateJoins(es: seq<Entry>, more: bool)
    requires WellSplit(es)
    ensures Concat(Terminate(es, more)) == Terminated(Concat(es), more)
  {
    if more && es != [] {
      var n, last := |es| - 1, es[|es| - 1];
      assert es == es[..n] + [last] && Whole(last.text);
      ConcatLast(es[..n], last);
      ConcatLast(es[..n], WithNewline(last));
      assert Concat(es)[|Concat(es)| - 1] == last.text[|last.text| - 1];
    }
  }

  lemma MergedEntriesJoin(read: Reader, file: string, changes: map<string, string>, keys: seq<string>)
    requires ValidChanges(changes)
    ensures Concat(MergedEntries(read, file, changes, keys)) == MergeText(read, file, changes, keys)
  {
    var es := Entries(read, file);
    EntriesWellSplit(read, file);
    RewriteWellSplit(es, changes, {});
    var added := Added(keys, changes, Written(es, changes));
    TerminateJoins(Rewrite(es, changes, {}), added != []);
    ConcatAppend(Terminate(Rewrite(es, changes, {}), added != []), added);
  }

  /** The last line the file keeps goes on, and something is added after it. */
  predicate Swallows(read: Reader, file: string, changes: map<string, string>, keys: seq<string>) {
    var es := Entries(read, file);
    && es != [] && es[|es| - 1].key !in changes && Continues(es[|es| - 1].text)
    && Added(keys, changes, Written(es, changes)) != []
  }

  lemma {:induction false} NewlineKeepsWhole(e: string, from: nat)
    requires from < |e| && EntryEnd(e, from) == |e| && !EndsWith(e, '\n')
    ensures EntryEnd(e + "\n", from) == |e| + 1
    decreases |e| - from
  {
    var m := LineEnd(e, from);
    LineEndAt(e, from);
    if m < |e| {
      LineEndIs(e + "\n", from, m);
      assert (e + "\n")[..m] == e[..m];
      NewlineKeepsWhole(e, m);
    } else {
      LineEndIs(e + "\n", from, m + 1);
    }
  }

  lemma NewlineKeeps(read: Reader, e: Entry)
    requires Reads(read) && Whole(e.text)
    ensures var f := WithNewline(e);
            && Whole(f.text) && EndsWith(f.text, '\n') && (Continues(f.text) <==> Continues(e.text))
            && (e == Keyed(read, e.text) ==> f == Keyed(read, f.text))
  {
    if !EndsWith(e.text, '\n') {
      NewlineKeepsWhole(e.text, 0);
      assert (e.text + "\n")[..|e.text|] == e.text;
    }
  }

  lemma AroundWellSplit(read: Reader, xs: seq<Entry>, e: Entry, ys: seq<Entry>)
    requires AllClosed(xs) && Closed(e.text) && AllClosed(ys)
    requires AllKeyed(read, xs) && e == Keyed(read, e.text) && AllKeyed(read, ys)
    ensures WellSplit(xs + [e] + ys) && AllKeyed(read, xs + [e] + ys)
  {
    var all := xs + [e] + ys;
    forall i | 0 <= i < |all|
      ensures Closed(all[i].text) && all[i] == Keyed(read, all[i].text)
    {
      assert all[i] == if i < |xs| then xs[i] else if i == |xs| then e else ys[i - |xs| - 1];
    }
  }

  lemma JoinAround(xs: seq<Entry>, e: Entry, ys: seq<Entry>)
    ensures Concat(xs + [e] + ys) == Concat(xs) + (e.text + Concat(ys))
  {
    ConcatAppend(xs + [e], ys);
    ConcatLast(xs, e);
  }

  /** Entries, then lines added after them: they read back as themselves exactly
      when the last of the entries does not go on. */
  lemma AddedReadsBack(read: Reader, body: seq<Entry>, added: seq<Entry>)
    requires Reads(read) && WellSplit(body) && AllKeyed(read, body) && body != [] && AllClosed(added) && AllKeyed(read, added) && added != []
    ensures Entries(read, Concat(Terminate(body, true) + added)) == Terminate(body, true) + added <==> !Continues(body[|body| - 1].text)
  {
    var n := |body| - 1;
    var last := WithNewline(body[n]);
    var merged := body[..n] + [last] + added;
    NewlineKeeps(read, body[n]);
    assert AllClosed(body[..n]) && AllKeyed(read, body[..n]);
    if Continues(last.text) {
      JoinAround(body[..n], last, added);
      assert Concat(added) != "" by { assert Closed(added[0].text); }
      OpenSwallows(read, body[..n], last.text, Concat(added));
      assert merged[n] == last;
    } else {
      AroundWellSplit(read, body[..n], last, added);
      SplitsBack(read, merged);
    }
  }

  /** Merge is exact: reading its result back gives the entries meant, exactly
      when the last line kept does not go on into what is added. */
  lemma MergeReadsBack(read: Reader, file: string, changes: map<string, string>, keys: seq<string>)
    requires Reads(read) && ValidChanges(changes)
    ensures Entries(read, MergeText(read, file, changes, keys)) == MergedEntries(read, file, changes, keys) <==> !Swallows(read, file, changes, keys)
  {
    var es := Entries(read, file);
    var body := Rewrite(es, changes, {});
    var added := Added(keys, changes, Written(es, changes));
    EntriesWellSplit(read, file);
    RewriteWellSplit(es, changes, {});
    RewriteKeyed(read, es, changes, {});
    AddedClosed(read, keys, changes, Written(es, changes));
    MergedEntriesJoin(read, file, changes, keys);
    if added == [] {
      assert body + added == body;
      SplitsBack(read, body);
    } else if body == [] {
      assert body + added == added;
      SplitsBack(read, added);
    } else {
      AddedReadsBack(read, body, added);
    }
  }

  // ---- what the merged entries hold

  /** The entries that set k. */
  function Settings(es: seq<Entry>, k: string): seq<Entry> {
    if es == [] then [] else (if es[0].key == k then [es[0]] else []) + Settings(es[1..], k)
  }

  /** The entries that set none of the changed variables. */
  function Others(es: seq<Entry>, changes: map<string, string>): seq<Entry> {
    if es == [] then [] else (if es[0].key in changes then [] else [es[0]]) + Others(es[1..], changes)
  }

  lemma {:induction false} SettingsAppend(xs: seq<Entry>, ys: seq<Entry>, k: string)
    ensures Settings(xs + ys, k) == Settings(xs, k) + Settings(ys, k)
  {
    if xs == [] {
      assert xs + ys == ys;
    } else {
      assert (xs + ys)[1..] == xs[1..] + ys;
      SettingsAppend(xs[1..], ys, k);
      Associate(if xs[0].key == k then [xs[0]] else [], Settings(xs[1..], k), Settings(ys, k));
    }
  }

  lemma {:induction false} OthersAppend(xs: seq<Entry>, ys: seq<Entry>, changes: map<string, string>)
    ensures Others(xs + ys, changes) == Others(xs, changes) + Others(ys, changes)
  {
    if xs == [] {
      assert xs + ys == ys;
    } else {
      assert (xs + ys)[1..] == xs[1..] + ys;
      OthersAppend(xs[1..], ys, changes);
      Associate(if xs[0].key in changes then [] else [xs[0]], Others(xs[1..], changes), Others(ys, changes));
    }
  }

  lemma {:induction false} RewriteSets(es: seq<Entry>, changes: map<string, string>, written: set<string>, k: string)
    requires k in changes
    ensures Settings(Rewrite(es, changes, written), k) ==
            if k !in written && k in Written(es, changes) then [LineEntry(k, changes[k])] else []
  {
    if es != [] {
      var key := es[0].key;
      if key in changes && key !in written && changes[key] != "" {
        RewriteSets(es[1..], changes, written + {key}, k);
      } else {
        RewriteSets(es[1..], changes, written, k);
      }
    }
  }

  lemma {:induction false} RewriteOthers(es: seq<Entry>, changes: map<string, string>, written: set<string>)
    ensures Others(Rewrite(es, changes, written), changes) == Others(es, changes)
  {
    if es != [] {
      var key := es[0].key;
      if key in changes && key !in written && changes[key] != "" {
        RewriteOthers(es[1..], changes, written + {key});
      } else {
        RewriteOthers(es[1..], changes, written);
      }
    }
  }

  lemma {:induction false} AddedSets(keys: seq<string>, changes: map<string, string>, written: set<string>, k: string)
    requires k in changes && multiset(keys)[k] <= 1
    ensures Settings(Added(keys, changes, written), k) ==
            if changes[k] != "" && k !in written && k in keys then [LineEntry(k, changes[k])] else []
  {
    if keys != [] {
      assert keys == [keys[0]] + keys[1..];
      AddedSets(keys[1..], changes, written, k);
    }
  }

  lemma {:induction false} AddedNoOthers(keys: seq<string>, changes: map<string, string>, written: set<string>)
    ensures Others(Added(keys, changes, written), changes) == []
  {
    if keys != [] { AddedNoOthers(keys[1..], changes, written); }
  }

  lemma {:induction false} WrittenChanged(es: seq<Entry>, changes: map<string, string>)
    ensures forall k | k in Written(es, changes) :: k in changes && changes[k] != ""
  {
    if es != [] { WrittenChanged(es[1..], changes); }
  }

  /** The final newline changes no entry that sets k when the last one does not. */
  lemma TerminateSets(es: seq<Entry>, more: bool, k: string)
    requires es != [] ==> es[|es| - 1].key != k || EndsWith(es[|es| - 1].text, '\n')
    ensures Settings(Terminate(es, more), k) == Settings(es, k)
  {
    if more && es != [] {
      var n, last := |es| - 1, es[|es| - 1];
      assert es == es[..n] + [last];
      SettingsAppend(es[..n], [last], k);
      SettingsAppend(es[..n], [WithNewline(last)], k);
    }
  }

  lemma KeysOnce(keys: seq<string>, names: set<string>, k: string)
    requires SortedKeys(keys, names)
    ensures multiset(keys)[k] <= 1 && (k in names ==> k in keys)
  {
    assert k in names ==> k in multiset(keys);
  }

  /** Each changed variable is set once, by the line for its new value, or
      nowhere when it is set to "". */
  lemma MergeSetsEachOnce(read: Reader, file: string, changes: map<string, string>, keys: seq<string>, k: string)
    requires ValidChanges(changes) && SortedKeys(keys, changes.Keys) && k in changes
    ensures Settings(MergedEntries(read, file, changes, keys), k) == if changes[k] == "" then [] else [LineEntry(k, changes[k])]
  {
    var es := Entries(read, file);
    var body, written := Rewrite(es, changes, {}), Written(es, changes);
    var added := Added(keys, changes, written);
    EntriesWellSplit(read, file);
    RewriteWellSplit(es, changes, {});
    RewriteSets(es, changes, {}, k);
    WrittenChanged(es, changes);
    TerminateSets(body, added != [], k);
    KeysOnce(keys, changes.Keys, k);
    AddedSets(keys, changes, written, k);
    SettingsAppend(Terminate(body, added != []), added, k);
  }

  /** The same entries, but for a final newline the last one lacked. */
  predicate SameButNewline(was: seq<Entry>, now: seq<Entry>) {
    now == was || (was != [] && now == was[..|was| - 1] + [WithNewline(was[|was| - 1])])
  }

  lemma TerminateKeepsOthers(es: seq<Entry>, more: bool, changes: map<string, string>)
    requires es != [] ==> es[|es| - 1].key !in changes || EndsWith(es[|es| - 1].text, '\n')
    ensures SameButNewline(Others(es, changes), Others(Terminate(es, more), changes))
  {
    if more && es != [] {
      var n, last := |es| - 1, es[|es| - 1];
      assert es == es[..n] + [last];
      OthersAppend(es[..n], [last], changes);
      OthersAppend(es[..n], [WithNewline(last)], changes);
      if last.key !in changes {
        assert Others([last], changes) == [last] && Others([WithNewline(last)], changes) == [WithNewline(last)];
      }
    }
  }

  /** Every other entry stays, in its old order and byte for byte; only a final
      newline the file lacked may be put in. */
  lemma MergeKeepsOthers(read: Reader, file: string, changes: map<string, string>, keys: seq<string>)
    requires ValidChanges(changes)
    ensures SameButNewline(Others(Entries(read, file), changes), Others(MergedEntries(read, file, changes, keys), changes))
  {
    var es := Entries(read, file);
    var body := Rewrite(es, changes, {});
    var added := Added(keys, changes, Written(es, changes));
    EntriesWellSplit(read, file);
    RewriteWellSplit(es, changes, {});
    RewriteOthers(es, changes, {});
    AddedNoOthers(keys, changes, Written(es, changes));
    TerminateKeepsOthers(body, added != [], changes);
    OthersAppend(Terminate(body, added != []), added, changes);
  }

  // ---- merging again

  predicate SettledAt(es: seq<Entry>, changes: map<string, string>, written: set<string>, k: string)
    requires k in changes
  {
    Settings(es, k) == if changes[k] == "" || k in written then [] else [LineEntry(k, changes[k])]
  }

  lemma SettledTail(es: seq<Entry>, changes: map<string, string>, written: set<string>, k: string)
    requires es != [] && k in changes && SettledAt(es, changes, written, k)
    ensures es[0].key != k ==> SettledAt(es[1..], changes, written + {es[0].key}, k) && SettledAt(es[1..], changes, written, k)
    ensures es[0].key == k ==>
              && changes[k] != "" && k !in written && es[0] == LineEntry(k, changes[k])
              && SettledAt(es[1..], changes, written + {k}, k)
  {
    var rest := Settings(es[1..], k);
    if es[0].key == k {
      assert |[es[0]] + rest| == 1 + |rest| && ([es[0]] + rest)[0] == es[0];
    } else {
      assert [] + rest == rest;
    }
  }

  /** Entries that already hold the changes, each once, are rewritten to themselves. */
  lemma {:induction false} RewriteSettled(es: seq<Entry>, changes: map<string, string>, written: set<string>)
    requires forall k | k in changes :: SettledAt(es, changes, written, k)
    ensures Rewrite(es, changes, written) == es
  {
    if es != [] {
      var key := es[0].key;
      var next := if key in changes then written + {key} else written;
      forall k | k in changes
        ensures SettledAt(es[1..], changes, next, k)
      {
        SettledTail(es, changes, written, k);
      }
      if key in changes { SettledTail(es, changes, written, key); }
      RewriteSettled(es[1..], changes, next);
    }
  }

  lemma {:induction false} NothingAdded(keys: seq<string>, changes: map<string, string>, written: set<string>)
    requires forall k | k in changes && changes[k] != "" :: k in written
    ensures Added(keys, changes, written) == []
  {
    if keys != [] { NothingAdded(keys[1..], changes, written); }
  }

  lemma {:induction false} SetsWritten(es: seq<Entry>, changes: map<string, string>, k: string)
    requires k in changes && changes[k] != "" && Settings(es, k) != []
    ensures k in Written(es, changes)
  {
    if es[0].key != k { SetsWritten(es[1..], changes, k); }
  }

  /** Merging the same changes again changes nothing. */
  lemma MergeIdempotent(read: Reader, file: string, changes: map<string, string>, keys: seq<string>)
    requires Reads(read) && ValidChanges(changes) && SortedKeys(keys, changes.Keys) && !Swallows(read, file, changes, keys)
    ensures var once := MergeText(read, file, changes, keys); MergeText(read, once, changes, keys) == once
  {
    var once := MergeText(read, file, changes, keys);
    var es := MergedEntries(read, file, changes, keys);
    MergeReadsBack(read, file, changes, keys);
    forall k | k in changes
      ensures SettledAt(es, changes, {}, k)
      ensures changes[k] != "" ==> k in Written(es, changes)
    {
      MergeSetsEachOnce(read, file, changes, keys, k);
      if changes[k] != "" { SetsWritten(es, changes, k); }
    }
    RewriteSettled(es, changes, {});
    NothingAdded(keys, changes, Written(es, changes));
    EntriesJoin(read, once);
  }

  /** The merge with variables read as the code reads them: unless the last
      line kept goes on into what is added, the result, read back, sets each
      changed variable once with its value (or nowhere), keeps every other
      entry, and is not changed by merging again. */
  lemma MergeExact(file: string, changes: map<string, string>, keys: seq<string>, k: string)
    requires ValidChanges(changes) && SortedKeys(keys, changes.Keys) && k in changes && !Swallows(KeyOf, file, changes, keys)
    ensures var once := MergeText(KeyOf, file, changes, keys);
            var after := Entries(KeyOf, once);
            && Settings(after, k) == (if changes[k] == "" then [] else [LineEntry(k, changes[k])])
            && (changes[k] != "" ==> ValueOf(LineEntry(k, changes[k]).text) == changes[k])
            && SameButNewline(Others(Entries(KeyOf, file), changes), Others(after, changes))
            && MergeText(KeyOf, once, changes, keys) == once
  {
    KeyOfReads();
    MergeReadsBack(KeyOf, file, changes, keys);
    MergeSetsEachOnce(KeyOf, file, changes, keys, k);
    MergeKeepsOthers(KeyOf, file, changes, keys);
    MergeIdempotent(KeyOf, file, changes, keys);
    if changes[k] != "" { LineReadsBack(k, changes[k]); }
  }
}
