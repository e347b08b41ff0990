/** The environment file edit. A character stands for one rune of the file, or
    for one byte that is not part of a valid rune. */
module BootEdit {
  import opened Strings

  // ---- characters and trimming

  predicate IsControl(c: char) { c < ' ' || '\U{7F}' <= c <= '\U{9F}' }

  function TrimEol(s: string): string {
    if s != "" && s[|s| - 1] in {'\r', '\n'} then TrimEol(s[..|s| - 1]) else s
  }

  predicate EndsWith(s: string, c: char) { s != "" && s[|s| - 1] == c }

  // ---- entries

  /** The entry goes on: without its line ends it ends in a backslash. */
  predicate Continues(entry: string) { EndsWith(TrimEol(entry), '\\') }

  /** Where the line that holds position `from` ends, its newline included. */
  function LineEnd(text: string, from: nat): (n: nat)
    requires from < |text|
    ensures from < n <= |text|
    decreases |text| - from
  {
    if text[from] == '\n' || from + 1 == |text| then from + 1 else LineEnd(text, from + 1)
  }

  /** Where the first entry ends, its lines up to `from` already read. */
  function EntryEnd(text: string, from: nat): (n: nat)
    requires from < |text|
    ensures from < n <= |text|
    decreases |text| - from
  {
    var n := LineEnd(text, from);
    if n == |text| || !Continues(text[..n]) then n else EntryEnd(text, n)
  }

  // ---- what an entry sets

  function IndexOf(s: string, c: char): (i: nat)
    ensures i <= |s|
  {
    if s == "" || s[0] == c then 0 else 1 + IndexOf(s[1..], c)
  }

  const EXPORT := "export "

  function Assignment(entry: string): string {
    var s := Trim(entry);
    if s == "" || s[0] == '#' || s[0] == ';' then ""
    else if EXPORT <= s then s[|EXPORT|..] else s
  }

  /** The variable an entry sets, "" for a comment, a blank line or anything else. */
  function KeyOf(entry: string): string {
    var s := Assignment(entry);
    if IndexOf(s, '=') == |s| then "" else Trim(s[..IndexOf(s, '=')])
  }

  /** An entry and the variable it sets. */
  datatype Entry = Entry(text: string, key: string)

  /** How the variable of an entry is read: KeyOf, in the program. */
  type Reader = string -> string

  function Keyed(read: Reader, text: string): Entry { Entry(text, read(text)) }

  /** The file as entries: each a line and the lines that continue it. */
  function Entries(read: Reader, text: string): seq<Entry>
    decreases |text|
  {
    if text == "" then [] else [Keyed(read, text[..EntryEnd(text, 0)])] + Entries(read, text[EntryEnd(text, 0)..])
  }

  function Concat(es: seq<Entry>): string {
    if es == [] then "" else es[0].text + Concat(es[1..])
  }

  /** The value the environment file reader takes from a one-line entry. */
  function ValueOf(entry: string): string {
    var s := Assignment(entry);
    if IndexOf(s, '=') == |s| then ""
    else
      var v := Trim(s[IndexOf(s, '=') + 1..]);
      if |v| >= 2 && ((v[0] == '"' && v[|v| - 1] == '"') || (v[0] == '\'' && v[|v| - 1] == '\'')) then v[1..|v| - 1] else v
  }

  predicate NeedsQuotes(v: string) { exists i | 0 <= i < |v| :: v[i] in " \t#;'" }

  function Line(k: string, v: string): string {
    if NeedsQuotes(v) then k + "=\"" + v + "\"\n" else k + "=" + v + "\n"
  }

  // ---- what may be written

  predicate PlainChar(c: char) { c != '"' && c != '\\' && c != '`' && c != '$' && !IsControl(c) }

  predicate Plain(v: string) { forall i | 0 <= i < |v| :: PlainChar(v[i]) }

  predicate NameChar(c: char) { 'A' <= c <= 'Z' || '0' <= c <= '9' || c == '_' }

  predicate Name(k: string) { k != "" && forall i | 0 <= i < |k| :: NameChar(k[i]) }

  predicate Writable(k: string, v: string) { Name(k) && Plain(v) && Trim(v) == v }

  predicate ValidChanges(changes: map<string, string>) {
    forall k | k in changes :: Writable(k, changes[k])
  }

  // ---- the merge

  function LineEntry(k: string, v: string): Entry { Entry(Line(k, v), k) }

  /** The entries of the file with the changes made where the variables stand. */
  function Rewrite(es: seq<Entry>, changes: map<string, string>, written: set<string>): seq<Entry> {
    if es == [] then []
    else
      var k := es[0].key;
      if k !in changes then [es[0]] + Rewrite(es[1..], changes, written)
      else if k in written || changes[k] == "" then Rewrite(es[1..], changes, written)
      else [LineEntry(k, changes[k])] + Rewrite(es[1..], changes, written + {k})
  }

  /** The variables Rewrite writes. */
  function Written(es: seq<Entry>, changes: map<string, string>): set<string> {
    if es == [] then {}
    else
      var k := es[0].key;
      Written(es[1..], changes) + if k in changes && changes[k] != "" then {k} else {}
  }

  /** The lines for the variables the file lacks, in order of name. */
  function Added(keys: seq<string>, changes: map<string, string>, written: set<string>): seq<Entry> {
    if keys == [] then []
    else
      var rest := Added(keys[1..], changes, written);
      if keys[0] in changes && changes[keys[0]] != "" && keys[0] !in written then [LineEntry(keys[0], changes[keys[0]])] + rest else rest
  }

  /** A body that something is added to gets the final newline it lacks. */
  function Terminated(body: string, more: bool): string {
    if more && body != "" && !EndsWith(body, '\n') then body + "\n" else body
  }

  function MergeText(read: Reader, file: string, changes: map<string, string>, keys: seq<string>): string {
    var es := Entries(read, file);
    var added := Added(keys, changes, Written(es, changes));
    Terminated(Concat(Rewrite(es, changes, {})), added != []) + Concat(added)
  }

}
