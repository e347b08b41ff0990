/** Changes and Merge as the source runs them, line by line. */
module BootEditMethods {
  import opened Basics
  import opened Strings
  import opened BootEdit
  import opened BootEditProofs

  // ---- Changes

  datatype Request = Request(values: map<string, string>, tlsMode: string)

  datatype ChangesError = UnknownMode | NotAllowed(key: string) | Unplain(key: string) | Rejected(key: string) | Nothing

  const ALLOWED: set<string> := {
    "ZANSKAR_APPS_MAX_SESSIONS", "ZANSKAR_DATABASE_MAX_SESSIONS", "ZANSKAR_PUBLIC_URL", "ZANSKAR_TLS_HOSTS",
    "ZANSKAR_LOG_FORMAT", "ZANSKAR_ISSUER", "ZANSKAR_AWS_GATEWAY_PRINCIPAL"
  }

  function Preset(mode: string): Option<map<string, string>> {
    if mode == "managed" then
      Some(map["ZANSKAR_TLS_MODE" := "managed", "ZANSKAR_LISTEN_ADDR" := ":443",
               "ZANSKAR_HTTP_REDIRECT_ADDR" := ":80", "ZANSKAR_TRUST_PROXY_TLS" := "false"])
    else if mode == "proxy" then
      Some(map["ZANSKAR_TLS_MODE" := "proxy", "ZANSKAR_LISTEN_ADDR" := "127.0.0.1:8443",
               "ZANSKAR_HTTP_REDIRECT_ADDR" := "", "ZANSKAR_TRUST_PROXY_TLS" := "true"])
    else if mode == "" then Some(map[])
    else None
  }

  const MAX_BYTES := 1024

  /** The bytes of a character in UTF-8. */
  function ByteLen(c: char): nat { if c < '\U{80}' then 1 else if c < '\U{800}' then 2 else if c < '\U{10000}' then 3 else 4 }

  function Bytes(s: string): nat { if s == "" then 0 else ByteLen(s[0]) + Bytes(s[1..]) }

  /** What is wrong with a requested value: the variable is not on the list, the
      value would not hold in its line, or the variable's own check refuses it. */
  function Complaint(check: (string, string) -> bool, k: string, v: string): Option<ChangesError> {
    var t := Trim(v);
    if k !in ALLOWED then Some(NotAllowed(k))
    else if Bytes(t) > MAX_BYTES || !Plain(t) then Some(Unplain(k))
    else if t != "" && !check(k, t) then Some(Rejected(k))
    else None
  }

  /** A value is taken exactly when its variable may be set, it is at most 1024
      bytes, no character of it could end its line or its quotes, and it is
      empty or passes the variable's own check. */
  lemma TakenExactly(check: (string, string) -> bool, k: string, v: string)
    ensures Complaint(check, k, v).None? <==>
              && k in ALLOWED && Bytes(Trim(v)) <= 1024 && (Trim(v) == "" || check(k, Trim(v)))
              && forall c | c in Trim(v) :: c !in {'"', '\\', '`', '$'} && ' ' <= c && !('\U{7F}' <= c <= '\U{9F}')
  {
    var t := Trim(v);
    assert Plain(t) <==> forall c | c in t :: PlainChar(c);
  }

  ghost predicate AllAcceptable(check: (string, string) -> bool, values: map<string, string>) {
    forall k | k in values :: Complaint(check, k, values[k]).None?
  }

  /** The complaint about the first variable, in byte order, that has one. */
  ghost predicate FirstComplaint(check: (string, string) -> bool, values: map<string, string>, e: ChangesError) {
    exists k | k in values :: Complaint(check, k, values[k]) == Some(e) && forall j | j in values && j != k && Leq(j, k) :: Complaint(check, j, values[j]).None?
  }

  lemma LongNames()
    ensures Name("ZANSKAR_APPS_MAX_SESSIONS") && Name("ZANSKAR_DATABASE_MAX_SESSIONS") && Name("ZANSKAR_AWS_GATEWAY_PRINCIPAL")
  {
  }

  lemma ShortNames()
    ensures Name("ZANSKAR_PUBLIC_URL") && Name("ZANSKAR_TLS_HOSTS") && Name("ZANSKAR_LOG_FORMAT") && Name("ZANSKAR_ISSUER")
  {
  }

  lemma AllowedNames(k: string)
    requires k in ALLOWED
    ensures Name(k)
  {
    LongNames();
    ShortNames();
  }

  lemma LiteralWritable(k: string, v: string)
    requires Name(k) && Plain(v) && (v == "" || (!IsSpace(v[0]) && !IsSpace(v[|v| - 1])))
    ensures Writable(k, v)
  {
    assert TrimRight(v) == v && TrimLeft(v) == v;
  }

  lemma PresetWritable(mode: string)
    requires Preset(mode).Some?
    ensures ValidChanges(Preset(mode).value)
  {
    ManagedWritable();
    ProxyWritable();
  }

  lemma PresetNames()
    ensures Name("ZANSKAR_TLS_MODE") && Name("ZANSKAR_LISTEN_ADDR")
    ensures Name("ZANSKAR_HTTP_REDIRECT_ADDR") && Name("ZANSKAR_TRUST_PROXY_TLS")
  {
  }

  lemma ManagedWritable()
    ensures Writable("ZANSKAR_TLS_MODE", "managed") && Writable("ZANSKAR_LISTEN_ADDR", ":443")
    ensures Writable("ZANSKAR_HTTP_REDIRECT_ADDR", ":80") && Writable("ZANSKAR_TRUST_PROXY_TLS", "false")
  {
    PresetNames();
    LiteralWritable("ZANSKAR_TLS_MODE", "managed");
    LiteralWritable("ZANSKAR_LISTEN_ADDR", ":443");
    LiteralWritable("ZANSKAR_HTTP_REDIRECT_ADDR", ":80");
    LiteralWritable("ZANSKAR_TRUST_PROXY_TLS", "false");
  }

  lemma ProxyWritable()
    ensures Writable("ZANSKAR_TLS_MODE", "proxy") && Writable("ZANSKAR_LISTEN_ADDR", "127.0.0.1:8443")
    ensures Writable("ZANSKAR_HTTP_REDIRECT_ADDR", "") && Writable("ZANSKAR_TRUST_PROXY_TLS", "true")
  {
    PresetNames();
    LiteralWritable("ZANSKAR_TLS_MODE", "proxy");
    LiteralWritable("ZANSKAR_LISTEN_ADDR", "127.0.0.1:8443");
    LiteralWritable("ZANSKAR_HTTP_REDIRECT_ADDR", "");
    LiteralWritable("ZANSKAR_TRUST_PROXY_TLS", "true");
  }

  lemma EmptyPreset(mode: string)
    requires Preset(mode).Some?
    ensures Preset(mode).value == map[] <==> mode == ""
  {
    if mode != "" { assert "ZANSKAR_TLS_MODE" in Preset(mode).value; }
  }

  /** The requested values, trimmed, of some variables. */
  function Requested(values: map<string, string>, names: seq<string>): map<string, string> {
    map k | k in names && k in values :: Trim(values[k])
  }

  lemma RequestedNext(values: map<string, string>, names: seq<string>, i: nat)
    requires i < |names| && names[i] in values
    ensures Requested(values, names[..i + 1]) == Requested(values, names[..i])[names[i] := Trim(values[names[i]])]
  {
    assert names[..i + 1] == names[..i] + [names[i]];
    assert forall n :: n in names[..i + 1] <==> n in names[..i] || n == names[i];
  }

  lemma FirstInOrder(check: (string, string) -> bool, values: map<string, string>, keys: seq<string>, i: nat)
    requires SortedKeys(keys, values.Keys) && i < |keys| && keys[i] in values
    requires forall j | 0 <= j < i :: keys[j] in values && Complaint(check, keys[j], values[keys[j]]).None?
    ensures Complaint(check, keys[i], values[keys[i]]).Some? ==>
              FirstComplaint(check, values, Complaint(check, keys[i], values[keys[i]]).value)
  {
    forall j | j in values && j != keys[i] && Leq(j, keys[i]) ensures Complaint(check, j, values[j]).None? {
      SortedKeysAre(keys, values.Keys);
      var n :| 0 <= n < |keys| && keys[n] == j;
      if i < n { LeqTotal(j, keys[i]); }
    }
  }

  /** Checks the requested values in order of name. */
  method CheckValues(values: map<string, string>, check: (string, string) -> bool) returns (r: Result<map<string, string>, ChangesError>)
    ensures r.Ok? <==> AllAcceptable(check, values)
    ensures r.Err? ==> FirstComplaint(check, values, r.error)
    ensures r.Ok? ==> r.value == (map k | k in values :: Trim(values[k])) && ValidChanges(r.value)
  {
    var out := map[];
    var keys := SortNames(values.Keys);
    SortedKeysAre(keys, values.Keys);
    for i := 0 to |keys|
      invariant forall j | 0 <= j < i :: Complaint(check, keys[j], values[keys[j]]).None?
      invariant out == Requested(values, keys[..i]) && ValidChanges(out)
    {
      var k := keys[i];
      var v := Trim(values[k]);
      FirstInOrder(check, values, keys, i);
      if k !in ALLOWED {
        return Err(NotAllowed(k));
      }
      if Bytes(v) > MAX_BYTES || !Plain(v) {
        return Err(Unplain(k));
      }
      if v != "" && !check(k, v) {
        return Err(Rejected(k));
      }
      AllowedNames(k);
      TrimTwice(values[k]);
      RequestedNext(values, keys, i);
      out := out[k := v];
    }
    assert keys[..|keys|] == keys;
    r := Ok(out);
  }

  /** Checks a request and returns the variables to write. It refuses the whole
      request exactly when the mode is unknown, there is a complaint about a
      value, or nothing is asked; what it returns can be merged. */
  method Changes(req: Request, check: (string, string) -> bool) returns (r: Result<map<string, string>, ChangesError>)
    ensures r.Ok? <==>
            && Preset(req.tlsMode).Some?
            && AllAcceptable(check, req.values)
            && (req.values != map[] || req.tlsMode != "")
    ensures r.Err? ==>
            if Preset(req.tlsMode).None? then r.error == UnknownMode
            else if !AllAcceptable(check, req.values) then FirstComplaint(check, req.values, r.error)
            else r.error == Nothing
    ensures r.Ok? ==> r.value == Preset(req.tlsMode).value + map k | k in req.values :: Trim(req.values[k])
    ensures r.Ok? ==> ValidChanges(r.value)
  {
    var preset := Preset(req.tlsMode);
    if preset.None? {
      return Err(UnknownMode);
    }
    PresetWritable(req.tlsMode);
    EmptyPreset(req.tlsMode);
    var values := CheckValues(req.values, check);
    if values.Err? {
      return values;
    }
    var out := preset.value + values.value;
    assert out.Keys == preset.value.Keys + req.values.Keys;
    if out == map[] {
      return Err(Nothing);
    }
    r := Ok(out);
  }

  lemma {:induction false} TrimTwice(s: string)
    ensures Trim(Trim(s)) == Trim(s)
  {
    RightTrimmed(s);
    LeftTrimmed(TrimRight(s));
  }

  lemma {:induction false} RightTrimmed(s: string)
    ensures TrimRight(s) == "" || !IsSpace(TrimRight(s)[|TrimRight(s)| - 1])
  {
    if s != "" && IsSpace(s[|s| - 1]) { RightTrimmed(s[..|s| - 1]); }
  }

  lemma {:induction false} LeftTrimmed(s: string)
    requires s == "" || !IsSpace(s[|s| - 1])
    ensures var t := TrimLeft(s); t == "" || (!IsSpace(t[0]) && !IsSpace(t[|t| - 1]))
  {
    if s != "" && IsSpace(s[0]) { LeftTrimmed(s[1..]); }
  }

  // ---- Merge

  /** The file cut after each newline; the last piece has none. */
  function Lines(text: string): seq<string>
    decreases |text|
  {
    if text == "" then [""]
    else
      var n := LineEnd(text, 0);
      if text[n - 1] == '\n' then [text[..n]] + Lines(text[n..]) else [text]
  }

  lemma LineEndShift(text: string, k: nat)
    requires k < |text|
    ensures LineEnd(text, k) == k + LineEnd(text[k..], 0)
  {
    var n := LineEnd(text, k);
    LineEndAt(text, k);
    forall i | 0 <= i < n - k - 1 ensures text[k..][i] != '\n' { assert text[k..][i] == text[k + i]; }
    LineEndIs(text[k..], 0, n - k);
  }

  /** Where the lines of `text` from the n-th character on are those still to be read. */
  ghost predicate Unread(lines: seq<string>, i: nat, text: string, n: nat) {
    && n <= |text| && i <= |lines|
    && (if i < |lines| then lines[i..] == Lines(text[n..]) else n == |text|)
  }

  lemma ReadLine(lines: seq<string>, i: nat, text: string, n: nat)
    requires i < |lines| && Unread(lines, i, text, n)
    ensures n + |lines[i]| <= |text| && text[..n] + lines[i] == text[..n + |lines[i]|]
    ensures lines[i] == "" <==> n == |text|
    ensures n < |text| ==> LineEnd(text, n) == n + |lines[i]|
    ensures Unread(lines, i + 1, text, n + |lines[i]|)
  {
    var rest := text[n..];
    assert lines[i] == lines[i..][0] && lines[i..][1..] == lines[i + 1..];
    if rest != "" {
      LineEndShift(text, n);
      var m := LineEnd(rest, 0);
      LineEndAt(rest, 0);
      assert lines[i] == rest[..m];
      if rest[m - 1] == '\n' { assert rest[m..] == text[n + m..]; }
    }
  }

  /** Where the entry ends whose lines up to n were read. */
  ghost function EndFrom(text: string, n: nat): nat
    requires n <= |text|
  {
    if n == |text| || (n > 0 && !Continues(text[..n])) then n else EntryEnd(text, n)
  }

  lemma ReadOn(text: string, n: nat)
    requires n < |text| && (n == 0 || Continues(text[..n]))
    ensures EndFrom(text, n) == EndFrom(text, LineEnd(text, n))
  {
  }

  /** Where reading an entry stands: line i was the last one read. */
  ghost predicate Reading(lines: seq<string>, i: nat, text: string, n: nat, entry: string) {
    && i < |lines| && 0 < n <= |text| && entry == text[..n]
    && Unread(lines, i + 1, text, n)
    && EndFrom(text, n) == EntryEnd(text, 0)
  }

  lemma ReadNext(lines: seq<string>, i: nat, text: string, n: nat, entry: string)
    requires Reading(lines, i, text, n, entry) && Continues(entry) && i + 1 < |lines|
    ensures Reading(lines, i + 1, text, n + |lines[i + 1]|, entry + lines[i + 1])
  {
    ReadLine(lines, i + 1, text, n);
    if n < |text| { ReadOn(text, n); }
  }

  /** The entry that has read up to line i, and the line after it. */
  function Gather(lines: seq<string>, i: nat, entry: string): (string, nat)
    decreases |lines| - i
  {
    if Continues(entry) && i + 1 < |lines| then Gather(lines, i + 1, entry + lines[i + 1]) else (entry, i + 1)
  }

  lemma {:induction false} GatherReads(lines: seq<string>, i: nat, text: string, n: nat, entry: string)
    requires Reading(lines, i, text, n, entry)
    ensures var (whole, j) := Gather(lines, i, entry);
            i < j && whole == text[..EntryEnd(text, 0)] && Unread(lines, j, text, EntryEnd(text, 0))
    decreases |lines| - i
  {
    if Continues(entry) && i + 1 < |lines| {
      ReadNext(lines, i, text, n, entry);
      GatherReads(lines, i + 1, text, n + |lines[i + 1]|, entry + lines[i + 1]);
    }
  }

  /** Reads one entry: a line and the lines that continue it. */
  method ReadEntry(lines: seq<string>, at: nat, ghost text: string) returns (entry: string, i: nat)
    requires at < |lines| && Unread(lines, at, text, 0) && text != ""
    ensures at < i && entry == text[..EntryEnd(text, 0)] && Unread(lines, i, text, EntryEnd(text, 0))
  {
    ReadLine(lines, at, text, 0);
    ReadOn(text, 0);
    GatherReads(lines, at, text, |lines[at]|, lines[at]);
    i := at;
    entry := lines[i];
    while Continues(entry) && i + 1 < |lines|
      invariant i < |lines| && Gather(lines, i, entry) == Gather(lines, at, lines[at])
      decreases |lines| - i
    {
      i := i + 1;
      entry := entry + lines[i];
    }
    i := i + 1;
  }

  /** What one entry contributes, and the variables written after it. */
  function Piece(e: Entry, changes: map<string, string>, written: set<string>): string {
    if e.key !in changes then e.text else if e.key in written || changes[e.key] == "" then "" else Line(e.key, changes[e.key])
  }

  function NowWritten(e: Entry, changes: map<string, string>, written: set<string>): set<string> {
    if e.key in changes && changes[e.key] != "" then written + {e.key} else written
  }

  lemma RewriteHead(e: Entry, es: seq<Entry>, changes: map<string, string>, written: set<string>)
    ensures Concat(Rewrite([e] + es, changes, written)) ==
            Piece(e, changes, written) + Concat(Rewrite(es, changes, NowWritten(e, changes, written)))
    ensures written + Written([e] + es, changes) == NowWritten(e, changes, written) + Written(es, changes)
  {
    assert ([e] + es)[1..] == es;
    if e.key in written { assert written + {e.key} == written; }
  }

  lemma Regroup(a: string, b: string, c: string)
    ensures (a + b) + c == a + (b + c)
  {
  }

  /** The changes made where the variables stand. */
  method RewriteFile(file: string, changes: map<string, string>) returns (out: string, written: set<string>)
    ensures out == Concat(Rewrite(Entries(KeyOf, file), changes, {}))
    ensures written == Written(Entries(KeyOf, file), changes)
  {
    out, written := "", {};
    var lines := Lines(file);
    ghost var rest := file;
    assert file[0..] == file && lines[0..] == lines;
    var i := 0;
    while i < |lines|
      invariant Unread(lines, i, rest, 0)
      invariant out + Concat(Rewrite(Entries(KeyOf, rest), changes, written)) == Concat(Rewrite(Entries(KeyOf, file), changes, {}))
      invariant written + Written(Entries(KeyOf, rest), changes) == Written(Entries(KeyOf, file), changes)
      decreases |lines| - i
    {
      ReadLine(lines, i, rest, 0);
      if lines[i] == "" {
        i := i + 1;
        continue;
      }
      var entry;
      entry, i := ReadEntry(lines, i, rest);
      ghost var n := EntryEnd(rest, 0);
      RewriteHead(Keyed(KeyOf, entry), Entries(KeyOf, rest[n..]), changes, written);
      rest := rest[n..];
      assert rest[0..] == rest;
      ghost var before, already := out, written;
      var key := KeyOf(entry);
      if key !in changes {
        out := out + entry;
      } else if key !in written && changes[key] != "" {
        written := written + {key};
        out := out + Line(key, changes[key]);
      }
      assert out == before + Piece(Keyed(KeyOf, entry), changes, already) && written == NowWritten(Keyed(KeyOf, entry), changes, already);
      Regroup(before, Piece(Keyed(KeyOf, entry), changes, already), Concat(Rewrite(Entries(KeyOf, rest), changes, written)));
    }
    assert rest == "";
  }

  lemma {:induction false} AddedAppend(xs: seq<string>, ys: seq<string>, changes: map<string, string>, written: set<string>)
    ensures Added(xs + ys, changes, written) == Added(xs, changes, written) + Added(ys, changes, written)
  {
    if xs == [] {
      assert xs + ys == ys;
    } else {
      assert (xs + ys)[1..] == xs[1..] + ys;
      AddedAppend(xs[1..], ys, changes, written);
    }
  }

  lemma AddedNext(keys: seq<string>, i: nat, changes: map<string, string>, written: set<string>)
    requires i < |keys| && keys[i] in changes
    ensures Added(keys[..i + 1], changes, written) ==
            Added(keys[..i], changes, written) + if changes[keys[i]] != "" && keys[i] !in written then [LineEntry(keys[i], changes[keys[i]])] else []
  {
    assert keys[..i + 1] == keys[..i] + [keys[i]];
    AddedAppend(keys[..i], [keys[i]], changes, written);
  }

  /** What has been written once `added` lines follow the body. */
  lemma AddLine(body: string, added: seq<Entry>, k: string, v: string)
    requires added != [] ==> EndsWith(Concat(added), '\n')
    ensures var out := Terminated(body, added != []) + Concat(added);
            Terminated(out, true) + Line(k, v) == Terminated(body, true) + Concat(added + [LineEntry(k, v)])
    ensures EndsWith(Concat(added + [LineEntry(k, v)]), '\n')
  {
    ConcatLast(added, LineEntry(k, v));
    if added == [] {
      assert Terminated(body, false) + Concat(added) == body;
    }
  }

  /** Merge: the changes written into the file's text. */
  method Merge(file: string, changes: map<string, string>) returns (out: string)
    ensures forall keys | SortedKeys(keys, changes.Keys) :: out == MergeText(KeyOf, file, changes, keys)
  {
    var written;
    out, written := RewriteFile(file, changes);
    ghost var body, already := out, written;
    var keys := SortNames(changes.Keys);
    SortedKeysAre(keys, changes.Keys);
    ghost var added: seq<Entry> := [];
    for i := 0 to |keys|
      invariant added == Added(keys[..i], changes, already)
      invariant out == Terminated(body, added != []) + Concat(added)
      invariant added != [] ==> EndsWith(Concat(added), '\n')
    {
      var k := keys[i];
      AddedNext(keys, i, changes, already);
      if changes[k] != "" && k !in written {
        AddLine(body, added, k, changes[k]);
        if out != "" && !EndsWith(out, '\n') {
          out := out + "\n";
        }
        out := out + Line(k, changes[k]);
        added := added + [LineEntry(k, changes[k])];
      }
    }
    assert keys[..|keys|] == keys;
    forall ks | SortedKeys(ks, changes.Keys)
      ensures out == MergeText(KeyOf, file, changes, ks)
    {
      OrderedUnique(keys, ks);
    }
  }
}
