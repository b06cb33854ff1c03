// The directives of a commit message or a run request: "[KEY|KEY:value|...]".
module Directives {
  import opened Text
  import opened Wrappers

  type Directives = map<string, Option<string>>

  const SUPPORTED: set<string> := {"DEPLOY", "CACHE", "CUSTOM_TAG", "TAG_COMMIT_SHA", "DRY_RUN", "NO_PUSH"}

  /** The whitespace class of a Unicode pattern. */
  predicate Space(c: char) {
    '\t' <= c <= '\r' || '\U{1C}' <= c <= ' ' || c == '\U{85}' || c == '\U{A0}' || c == '\U{1680}'
    || '\U{2000}' <= c <= '\U{200A}' || c == '\U{2028}' || c == '\U{2029}' || c == '\U{202F}'
    || c == '\U{205F}' || c == '\U{3000}'
  }

  predicate Allowed(c: char) {
    'a' <= c <= 'z' || 'A' <= c <= 'Z' || '0' <= c <= '9' || Space(c) || c in ":|._-"
  }

  predicate AllAllowed(s: string) {
    forall c :: c in s ==> Allowed(c)
  }

  /** `s[i..j]` matches the pattern: preceded by '[', followed by ']', made of allowed characters. */
  ghost predicate MatchAt(s: string, i: nat, j: nat) {
    1 <= i < j < |s| && s[i - 1] == '[' && s[j] == ']' && AllAllowed(s[i..j])
  }

  /** The end of the greedy run of allowed characters. */
  function RunEnd(s: string, i: nat): (j: nat)
    requires i <= |s|
    ensures i <= j <= |s| && AllAllowed(s[i..j]) && (j < |s| ==> !Allowed(s[j]))
    decreases |s| - i
  {
    if i < |s| && Allowed(s[i]) then
      var j := RunEnd(s, i + 1);
      assert s[i..j] == [s[i]] + s[i + 1..j];
      j
    else i
  }

  /** The first match at or after `i`. */
  function DirectiveSet(s: string, i: nat): Option<string>
    requires 1 <= i
    decreases |s| - i
  {
    if i >= |s| then None
    else
      var j := RunEnd(s, i);
      if s[i - 1] == '[' && i < j < |s| && s[j] == ']' then Some(s[i..j]) else DirectiveSet(s, i + 1)
  }

  lemma {:induction false} MatchIsGreedy(s: string, i: nat, j: nat)
    requires MatchAt(s, i, j)
    ensures j == RunEnd(s, i)
  {
    var k := RunEnd(s, i);
    assert forall l :: i <= l < j ==> s[i..j][l - i] == s[l] && s[l] in s[i..j];
    assert forall l :: i <= l < k ==> s[i..k][l - i] == s[l] && s[l] in s[i..k];
  }

  /** Nothing found means no match; what is found is the leftmost match. */
  lemma {:induction false} DirectiveSetIsFirst(s: string, i: nat)
    requires 1 <= i
    ensures DirectiveSet(s, i).None? ==> forall k: nat, j: nat :: i <= k ==> !MatchAt(s, k, j)
    ensures DirectiveSet(s, i).Some? ==> exists k: nat, j: nat ::
      MatchAt(s, k, j) && i <= k && DirectiveSet(s, i).value == s[k..j] && forall k': nat, j': nat :: i <= k' < k ==> !MatchAt(s, k', j')
    decreases |s| - i
  {
    if i < |s| {
      forall j | MatchAt(s, i, j) ensures j == RunEnd(s, i) {
        MatchIsGreedy(s, i, j);
      }
      if MatchAt(s, i, RunEnd(s, i)) {
        assert DirectiveSet(s, i).value == s[i..RunEnd(s, i)];
      } else {
        DirectiveSetIsFirst(s, i + 1);
      }
    }
  }

  // Joined pieces.

  lemma {:induction false} JoinAllowed(pieces: seq<string>, d: char)
    requires Allowed(d) && forall p :: p in pieces ==> AllAllowed(p)
    ensures AllAllowed(Join(pieces, d))
  {
    if |pieces| > 1 {
      var n := |pieces| - 1;
      JoinAllowed(pieces[..n], d);
      assert pieces[n] in pieces;
    }
    hide Allowed;
  }

  // Parsing.

  function UpperChar(c: char): char {
    if 'a' <= c <= 'z' then c - 'a' + 'A' else c
  }

  /** Upper case, for the characters the pattern lets through. */
  function Upper(s: string): (u: string)
    ensures |u| == |s| && forall i :: 0 <= i < |s| ==> u[i] == UpperChar(s[i])
  {
    if s == "" then "" else [UpperChar(s[0])] + Upper(s[1..])
  }

  /** The directive a piece stands for: nothing when it is empty or its key is unknown. */
  function Entry(piece: string): Directives {
    if piece == "" then map[]
    else
      var keyVal := Split(piece, ':');
      var key := Upper(keyVal[0]);
      if key in SUPPORTED then map[key := if |keyVal| == 1 then None else Some(keyVal[1])] else map[]
  }

  /** What the pieces say together, later ones winning. */
  function Collected(pieces: seq<string>): Directives {
    if pieces == [] then map[] else Collected(pieces[..|pieces| - 1]) + Entry(pieces[|pieces| - 1])
  }

  /** `pieces[i]` gives the key and no later piece does. */
  ghost predicate LastGiving(pieces: seq<string>, key: string, i: int) {
    0 <= i < |pieces| && key in Entry(pieces[i]) && forall j :: i < j < |pieces| ==> key !in Entry(pieces[j])
  }

  /** A key is present when some piece gives it, with the value of the last piece that does. */
  lemma {:induction false} LastPieceWins(pieces: seq<string>, key: string)
    ensures key in Collected(pieces) <==> exists i :: 0 <= i < |pieces| && key in Entry(pieces[i])
    ensures forall i :: LastGiving(pieces, key, i) ==> key in Collected(pieces) && Collected(pieces)[key] == Entry(pieces[i])[key]
  {
    hide Entry;
    if pieces != [] {
      var n := |pieces| - 1;
      var front, last := pieces[..n], pieces[n];
      LastPieceWins(front, key);
      assert pieces == front + [last];
      assert forall i :: LastGiving(pieces, key, i) && i < n ==> key !in Entry(last) && LastGiving(front, key, i);
    }
  }

  lemma {:induction false} MergeAssociative(a: Directives, b: Directives, c: Directives)
    ensures (a + b) + c == a + (b + c)
  {
  }

  lemma {:induction false} CollectedConcat(a: seq<string>, b: seq<string>)
    ensures Collected(a + b) == Collected(a) + Collected(b)
  {
    hide Entry;
    if b == [] {
      assert a + b == a;
    } else {
      var n := |b| - 1;
      CollectedConcat(a, b[..n]);
      assert (a + b)[..|a + b| - 1] == a + b[..n];
      MergeAssociative(Collected(a), Collected(b[..n]), Entry(b[n]));
    }
  }

  function Found(m: Directives): Option<Directives> {
    if m == map[] then None else Some(m)
  }

  function Parse(s: string): Option<Directives> {
    match DirectiveSet(s, 1)
    case None => None
    case Some(text) => Found(Collected(Split(text, '|')))
  }

  lemma {:induction false} CollectedNext(pieces: seq<string>, i: nat)
    requires i < |pieces|
    ensures Collected(pieces[..i + 1]) == Collected(pieces[..i]) + Entry(pieces[i])
  {
    assert pieces[..i + 1][..i] == pieces[..i];
  }

  /** What a piece adds to the map. */
  lemma {:induction false} EntryAdds(m: Directives, piece: string)
    ensures piece == "" ==> m + Entry(piece) == m
    ensures piece != "" ==>
      var keyVal := Split(piece, ':');
      var key := Upper(keyVal[0]);
      m + Entry(piece) == if key !in SUPPORTED then m else m[key := if |keyVal| == 1 then None else Some(keyVal[1])]
  {
    hide Split, Upper, SUPPORTED;
  }

  /** The parser's loop over the pieces. */
  method ParseDirectives(s: string) returns (r: Option<Directives>)
    ensures r == Parse(s)
  {
    var text := DirectiveSet(s, 1);
    if text.None? {
      return None;
    }
    var directives: Directives := map[];
    assert directives == Collected([]);
    var pieces := Split(text.value, '|');
    hide Collected, Entry, Split, Upper, SUPPORTED, DirectiveSet;
    for i := 0 to |pieces|
      invariant directives == Collected(pieces[..i])
    {
      CollectedNext(pieces, i);
      EntryAdds(directives, pieces[i]);
      if pieces[i] == "" {
        continue;
      }
      var keyVal := Split(pieces[i], ':');
      var key := Upper(keyVal[0]);
      if key in SUPPORTED {
        var val := if |keyVal| == 1 then None else Some(keyVal[1]);
        directives := directives[key := val];
      }
    }
    assert pieces[..|pieces|] == pieces;
    return if |directives| == 0 then None else Some(directives);
  }

  // Printing, and parsing what was printed.

  function Print(ds: seq<string>): string {
    "[" + Join(ds, '|') + "]"
  }

  function Contents(r: Option<Directives>): Directives {
    if r.None? then map[] else r.value
  }

  /** Each directive parsed alone, later ones winning. */
  function Merged(ds: seq<string>): Directives {
    if ds == [] then map[] else Merged(ds[..|ds| - 1]) + Contents(Parse(Print([ds[|ds| - 1]])))
  }

  lemma {:induction false} BracketedSet(body: string)
    requires AllAllowed(body)
    ensures DirectiveSet("[" + body + "]", 1) == if body == "" then None else Some(body)
  {
    var s := "[" + body + "]";
    var n := |body| + 1;
    assert s[1..n] == body;
    if body == "" {
      DirectiveSetIsFirst(s, 1);
    } else {
      MatchIsGreedy(s, 1, n);
    }
  }

  lemma {:induction false} ParseBracketed(body: string)
    requires AllAllowed(body)
    ensures Parse("[" + body + "]") == Found(Collected(Split(body, '|')))
  {
    BracketedSet(body);
    assert Split("", '|') == [""];
    assert Collected([""][..0]) == map[] && Entry("") == map[];
    assert Collected([""]) == map[];
  }

  lemma {:induction false} CollectedIsMerged(ds: seq<string>)
    requires ds != [] && forall d :: d in ds ==> AllAllowed(d)
    ensures Collected(Split(Join(ds, '|'), '|')) == Merged(ds)
  {
    var n := |ds| - 1;
    var front, last := ds[..n], ds[n];
    assert ds == front + [last];
    AloneIs(last);
    if n == 0 {
      assert Merged(front) == map[];
      assert Join(ds, '|') == last;
    } else {
      CollectedIsMerged(front);
      SplitConcat(Join(front, '|'), '|', last);
      CollectedConcat(Split(Join(front, '|'), '|'), Split(last, '|'));
      hide Collected, Split, Parse, AllAllowed, Allowed;
    }
  }

  /** A directive parsed alone. */
  lemma {:induction false} AloneIs(d: string)
    requires AllAllowed(d)
    ensures Contents(Parse(Print([d]))) == Collected(Split(d, '|'))
  {
    assert Join([d], '|') == d;
    ParseBracketed(d);
  }

  /** Directives sent together mean what they mean alone, later ones winning. */
  lemma {:induction false} ParsePrinted(ds: seq<string>)
    requires ds != [] && forall d :: d in ds ==> AllAllowed(d)
    ensures Parse(Print(ds)) == Found(Merged(ds))
  {
    JoinAllowed(ds, '|');
    ParseBracketed(Join(ds, '|'));
    CollectedIsMerged(ds);
    hide Join, Split, Collected, Merged, Parse;
  }

  lemma {:induction false} CharJoinedLast(x: string, y: string, c: char)
    ensures c in x + ['|'] + y <==> c == '|' || c in x || c in y
  {
    var s := x + ['|'] + y;
    assert s[|x|] == '|';
    assert forall i :: 0 <= i < |x| ==> s[i] == x[i];
    assert forall i :: 0 <= i < |y| ==> s[|x| + 1 + i] == y[i];
  }

  lemma {:induction false} CharJoined(ds: seq<string>, c: char)
    ensures c in Join(ds, '|') <==> (c == '|' && |ds| > 1) || exists d :: d in ds && c in d
  {
    if |ds| == 1 {
      assert forall d :: d in ds ==> d == ds[0];
    } else if ds != [] {
      var n := |ds| - 1;
      CharJoined(ds[..n], c);
      CharJoinedLast(Join(ds[..n], '|'), ds[n], c);
      assert ds == ds[..n] + [ds[n]];
      assert forall d :: d in ds <==> d in ds[..n] || d == ds[n];
    }
  }

  /** One other character in one directive, and all of them are lost. */
  lemma {:induction false} BadCharacterLosesAll(ds: seq<string>, d: string, c: char)
    requires d in ds && c in d && !Allowed(c)
    requires forall e :: e in ds ==> '[' !in e && ']' !in e
    ensures Parse(Print(ds)) == None
  {
    var body := Join(ds, '|');
    var s := Print(ds);
    CharJoined(ds, c);
    CharJoined(ds, '[');
    CharJoined(ds, ']');
    DirectiveSetIsFirst(s, 1);
    assert s[1..|body| + 1] == body && !AllAllowed(body);
    if i: nat, j: nat :| MatchAt(s, i, j) {
      NoBracketInside(body, i, j);
    }
  }

  /** For directives without brackets, sending them together means what they mean
      alone exactly when all their characters are allowed, or none of them means anything. */
  lemma {:induction false} TogetherIffAllowed(ds: seq<string>)
    requires ds != [] && forall e :: e in ds ==> '[' !in e && ']' !in e
    ensures Parse(Print(ds)) == Found(Merged(ds)) <==> (forall d :: d in ds ==> AllAllowed(d)) || Merged(ds) == map[]
  {
    if d, c :| d in ds && c in d && !Allowed(c) {
      BadCharacterLosesAll(ds, d, c);
    } else {
      ParsePrinted(ds);
    }
    hide Parse, Print, Merged, Allowed;
  }

  lemma {:induction false} NoBracketInside(body: string, i: nat, j: nat)
    requires '[' !in body && ']' !in body && MatchAt("[" + body + "]", i, j)
    ensures i == 1 && j == |body| + 1
  {
    var s := "[" + body + "]";
    assert forall k :: 1 <= k < |body| + 1 ==> s[k] == body[k - 1] && s[k] in body;
  }

  // Round trip.

  /** `c` is the capital letter or underscore `k`, or the small letter of it. */
  ghost predicate SameLetter(c: char, k: char) {
    c == k || ('A' <= k <= 'Z' && c as int == k as int + 32)
  }

  /** `name` spells `key` in some mixture of cases. */
  ghost predicate Spells(name: string, key: string) {
    |name| == |key| && forall j :: 0 <= j < |key| ==> SameLetter(name[j], key[j])
  }

  /** What a directive means: its key in any letter case, and of a value what comes
      before a second ':'. */
  lemma {:induction false} EntryMeans(name: string, key: string, v: string, more: string)
    requires key in SUPPORTED && Spells(name, key) && ':' !in v
    ensures Entry(name) == map[key := None]
    ensures Entry(name + ":" + v) == map[key := Some(v)] && Entry(name + ":" + v + ":" + more) == map[key := Some(v)]
  {
    SpellsUpper(name, key);
    SplitWhole(name, ':');
    SplitWhole(v, ':');
    SplitConcat(name, ':', v);
    SplitConcat(name + ":" + v, ':', more);
    assert name + [':'] + v == name + ":" + v && (name + ":" + v) + [':'] + more == name + ":" + v + ":" + more;
    SupportedNotEmpty(key);
    hide SUPPORTED, Upper, Split;
  }

  /** A directive means something only when what comes before its first ':' spells a supported key. */
  lemma {:induction false} UnknownMeansNothing(name: string, v: string)
    requires ':' !in name && forall key :: key in SUPPORTED ==> !Spells(name, key)
    ensures Entry(name) == map[] && Entry(name + ":" + v) == map[]
  {
    SplitWhole(name, ':');
    SplitConcat(name, ':', v);
    assert name + [':'] + v == name + ":" + v;
    if Upper(name) in SUPPORTED {
      UpperSpells(name);
    }
    hide SUPPORTED, Upper, Split, Spells;
  }

  lemma {:induction false} SupportedNotEmpty(key: string)
    requires key in SUPPORTED
    ensures key != "" && ':' !in key
  {
    forall i | 0 <= i < |key| ensures key[i] != ':' {
      SupportedKeyChars(key, i);
    }
  }

  lemma {:induction false} SpellsUpper(name: string, key: string)
    requires key in SUPPORTED && Spells(name, key)
    ensures Upper(name) == key && ':' !in name
  {
    var u := Upper(name);
    hide SUPPORTED, Upper;
    forall j | 0 <= j < |key| ensures u[j] == key[j] && name[j] != ':' {
      SupportedKeyChars(key, j);
    }
  }

  lemma {:induction false} UpperSpells(name: string)
    ensures Spells(name, Upper(name))
  {
  }

  function PrintEntry(name: string, v: Option<string>): string {
    match v
    case None => name
    case Some(text) => name + ":" + text
  }

  /** The entries for `keys`, in that order, each key written as the name at its place. */
  function PrintEntries(names: seq<string>, keys: seq<string>, m: Directives): seq<string>
    requires |names| == |keys| && forall k :: k in keys ==> k in m
  {
    if keys == [] then []
    else
      var n := |keys| - 1;
      PrintEntries(names[..n], keys[..n], m) + [PrintEntry(names[n], m[keys[n]])]
  }

  ghost predicate Printable(v: Option<string>) {
    v.Some? ==> AllAllowed(v.value) && ':' !in v.value && '|' !in v.value
  }

  lemma {:induction false} SupportedKeyChars(key: string, i: nat)
    requires key in SUPPORTED && i < |key|
    ensures 'A' <= key[i] <= 'Z' || key[i] == '_'
  {
  }

  lemma {:induction false} PrintedEntry(name: string, key: string, v: Option<string>)
    requires key in SUPPORTED && Spells(name, key) && Printable(v)
    ensures AllAllowed(PrintEntry(name, v)) && '|' !in PrintEntry(name, v)
    ensures Entry(PrintEntry(name, v)) == map[key := v]
  {
    NamePlain(name, key);
    EntryMeans(name, key, if v.Some? then v.value else "", "");
    hide SUPPORTED, Entry, Spells;
  }

  lemma {:induction false} NamePlain(name: string, key: string)
    requires key in SUPPORTED && Spells(name, key)
    ensures AllAllowed(name) && '|' !in name
  {
    forall j | 0 <= j < |name| ensures Allowed(name[j]) && name[j] != '|' {
      SupportedKeyChars(key, j);
    }
    hide SUPPORTED;
  }

  ghost predicate Renders(m: Directives) {
    forall k :: k in m ==> k in SUPPORTED && Printable(m[k])
  }

  /** Each name spells the key at its place. */
  ghost predicate AllSpell(names: seq<string>, keys: seq<string>) {
    |names| == |keys| && forall i :: 0 <= i < |keys| ==> Spells(names[i], keys[i])
  }

  lemma {:induction false} OneMoreKey(keys: seq<string>, m: Directives)
    requires keys != [] && keys[|keys| - 1] in m
    ensures var n := |keys| - 1; var key := keys[n];
      (map k | k in m && k in keys :: m[k]) == (map k | k in m && k in keys[..n] :: m[k]) + map[key := m[key]]
  {
    assert keys == keys[..|keys| - 1] + [keys[|keys| - 1]];
  }

  lemma {:induction false} PrintedEntries(names: seq<string>, keys: seq<string>, m: Directives)
    requires Renders(m) && AllSpell(names, keys) && forall k :: k in keys ==> k in m
    ensures |PrintEntries(names, keys, m)| == |keys|
    ensures forall e :: e in PrintEntries(names, keys, m) ==> AllAllowed(e) && '|' !in e
    ensures Collected(PrintEntries(names, keys, m)) == map k | k in m && k in keys :: m[k]
  {
    if keys != [] {
      var n := |keys| - 1;
      var es := PrintEntries(names, keys, m);
      PrintedEntries(names[..n], keys[..n], m);
      assert keys[n] in keys;
      PrintedEntry(names[n], keys[n], m[keys[n]]);
      OneMoreKey(keys, m);
      assert es[..n] == PrintEntries(names[..n], keys[..n], m) && es[n] == PrintEntry(names[n], m[keys[n]]);
      hide Entry, PrintEntry, PrintEntries, Printable, AllAllowed, Spells, Renders, AllSpell;
      assert forall e :: e in es ==> e in es[..n] || e == es[n];
    }
  }

  /** Every nonempty map of supported keys survives printing and parsing: `keys` lists
      its keys in any order and with any repetition, `names` spells them in any letter case. */
  lemma {:induction false} RoundTrip(names: seq<string>, keys: seq<string>, m: Directives)
    requires m != map[] && Renders(m) && AllSpell(names, keys) && forall k :: k in keys <==> k in m
    ensures Parse(Print(PrintEntries(names, keys, m))) == Some(m)
  {
    var es := PrintEntries(names, keys, m);
    PrintedEntries(names, keys, m);
    SomeKey(keys, m);
    hide Renders, PrintEntries, AllAllowed, Spells, AllSpell, Parse, Print;
    ParseJoined(es);
    assert Collected(es) == m;
  }

  lemma {:induction false} SomeKey(keys: seq<string>, m: Directives)
    requires m != map[] && forall k :: k in m ==> k in keys
    ensures keys != []
  {
    var k :| k in m;
    assert k in keys;
  }

  lemma {:induction false} ParseJoined(es: seq<string>)
    requires es != [] && forall e :: e in es ==> AllAllowed(e) && '|' !in e
    ensures Parse(Print(es)) == Found(Collected(es))
  {
    JoinAllowed(es, '|');
    ParseBracketed(Join(es, '|'));
    SplitJoined(es, '|');
    hide Parse, Join, Split, Collected, AllAllowed;
  }

  /** A map that is found is not empty. */
  lemma {:induction false} NeverEmpty(s: string)
    ensures Parse(s) != Some(map[])
    ensures Parse(s).None? <==>
      match DirectiveSet(s, 1) case None => true case Some(text) => forall p :: p in Split(text, '|') ==> Entry(p) == map[]
  {
    match DirectiveSet(s, 1)
    case None =>
    case Some(text) => EmptyWhenAllAre(Split(text, '|'));
  }

  lemma {:induction false} EmptyWhenAllAre(pieces: seq<string>)
    ensures Collected(pieces) == map[] <==> forall p :: p in pieces ==> Entry(p) == map[]
  {
    hide Entry;
    if pieces != [] {
      var n := |pieces| - 1;
      EmptyWhenAllAre(pieces[..n]);
      assert pieces == pieces[..n] + [pieces[n]];
      EmptyMerge(Collected(pieces[..n]), Entry(pieces[n]));
    }
  }

  lemma {:induction false} EmptyMerge(a: Directives, b: Directives)
    ensures a + b == map[] <==> a == map[] && b == map[]
  {
    if a + b == map[] {
      assert forall k :: k in a ==> k in a + b;
      assert forall k :: k in b ==> k in a + b;
    }
  }

  /** The characters of the pattern by their codes: tab to carriage return, the four
      separators and the blank, '-' and '.', digits, ':', capitals, '_', small letters and '|'. */
  lemma {:induction false} AllowedCodes(c: char)
    requires c as int < 128
    ensures Allowed(c) <==>
      var n := c as int;
      9 <= n <= 13 || 28 <= n <= 32 || 45 <= n <= 46 || 48 <= n <= 58 || 65 <= n <= 90 || n == 95 || 97 <= n <= 122 || n == 124
  {
    assert ":|._-" == [':', '|', '.', '_', '-'];
  }
}
