/**
  Merging the settings of local apps into the host's (config/local_apps.py, lines 115-153).

  `ApplyLocalAppSettings` collects the declarations of every app before it touches the host's
  namespace.  The lemmas state when a list of apps is accepted without running it, what the
  merged namespace holds, and that the order of the apps does not matter.
 */
module LocalAppSettings {
  import opened Wrappers

  const PUBLIC_PATHS := "BFG_EXTRA_PUBLIC_PATHS"

  datatype Value = Plain(content: string) | Paths(paths: seq<string>)

  /** An item of a SETTINGS dictionary; the key is None when it is not a string. */
  datatype Entry = Entry(key: Option<string>, value: Value)

  /** The items of a dictionary: no key twice. */
  type Dict = items: seq<Entry> | forall i, j :: 0 <= i < j < |items| ==> items[i].key != items[j].key

  /** A host_settings module: None for a declaration, or an entry, of the wrong type. */
  datatype Contribution = Contribution(settings: Option<Dict>, publicPaths: Option<seq<Option<string>>>)

  /** An app and its host_settings module, when it has one. */
  datatype App = App(name: string, contribution: Option<Contribution>)

  datatype Error =
    | NotADict(app: string)
    | InvalidKey(app: string)
    | KeyTaken(app: string, key: string)
    | PathOutside(app: string)

  type Namespace = map<string, Value>

  // ---- Checks on one declaration ----

  predicate Upper(c: char) { 'A' <= c <= 'Z' }

  predicate Digit(c: char) { '0' <= c <= '9' }

  /** An identifier with a letter and no lower-case letter. */
  predicate ValidKey(key: string) {
    key != "" && !Digit(key[0])
    && (forall c :: c in key ==> Upper(c) || Digit(c) || c == '_')
    && (exists c :: c in key && Upper(c))
  }

  function Split(text: string, separator: char): (parts: seq<string>)
    ensures parts != []
  {
    if text == "" then [""]
    else
      var rest := Split(text[1..], separator);
      if text[0] == separator then [""] + rest else [[text[0]] + rest[0]] + rest[1..]
  }

  function Rejoined(parts: seq<string>, separator: char): string
    requires parts != []
  {
    if |parts| == 1 then parts[0] else parts[0] + ([separator] + Rejoined(parts[1..], separator))
  }

  /** The parts hold no separator and make up the text again. */
  lemma {:induction false} SplitExact(text: string, separator: char)
    ensures Rejoined(Split(text, separator), separator) == text
    ensures forall i :: 0 <= i < |Split(text, separator)| ==> separator !in Split(text, separator)[i]
  {
    if text != "" {
      var rest := Split(text[1..], separator);
      SplitExact(text[1..], separator);
      var parts := Split(text, separator);
      if text[0] == separator {
        assert parts[1..] == rest;
        assert parts[0] + ([separator] + text[1..]) == text;
      } else {
        assert parts[1..] == rest[1..];
        assert text == [text[0]] + text[1..];
        if |rest| > 1 {
          assert ([text[0]] + rest[0]) + ([separator] + Rejoined(rest[1..], separator))
            == [text[0]] + (rest[0] + ([separator] + Rejoined(rest[1..], separator)));
        }
      }
    }
  }

  /** The last dotted part of an app's name. */
  function ShortName(app: string): string {
    var parts := Split(app, '.');
    parts[|parts| - 1]
  }

  /** It holds no dot, and is the whole name or what stands behind its last dot. */
  lemma ShortNameExact(app: string)
    ensures '.' !in ShortName(app)
    ensures app == ShortName(app) || exists before: string :: app == before + ("." + ShortName(app))
  {
    SplitExact(app, '.');
    LastPart(Split(app, '.'), '.');
  }

  lemma {:induction false} LastPart(parts: seq<string>, separator: char)
    requires parts != []
    ensures var last, text := parts[|parts| - 1], Rejoined(parts, separator);
      text == last || exists before: string :: text == before + ([separator] + last)
  {
    if |parts| > 1 {
      LastPart(parts[1..], separator);
      var last, rest := parts[|parts| - 1], Rejoined(parts[1..], separator);
      if rest == last {
        assert Rejoined(parts, separator) == parts[0] + ([separator] + last);
      } else {
        var before: string :| rest == before + ([separator] + last);
        assert Rejoined(parts, separator) == (parts[0] + [separator] + before) + ([separator] + last);
      }
    }
  }

  const LETTERS := "ABCDEFGHIJKLMNOPQRSTUVWXYZ"
  const DIGITS := "0123456789"

  lemma UpperSet(c: char)
    ensures Upper(c) <==> c in LETTERS
  {
    assert |LETTERS| == 26 && forall i :: 0 <= i < 26 ==> LETTERS[i] == 'A' + i as char;
    if Upper(c) {
      var i := (c - 'A') as int;
      assert LETTERS[i] == c;
    }
  }

  lemma DigitSet(c: char)
    ensures Digit(c) <==> c in DIGITS
  {
    assert |DIGITS| == 10 && forall i :: 0 <= i < 10 ==> DIGITS[i] == '0' + i as char;
    if Digit(c) {
      var i := (c - '0') as int;
      assert DIGITS[i] == c;
    }
  }

  /** Keys are made of capitals, digits and underscores, start with no digit and have a capital. */
  lemma KeyExact(key: string)
    ensures ValidKey(key) <==>
      && key != "" && key[0] !in DIGITS
      && (forall i :: 0 <= i < |key| ==> key[i] in LETTERS || key[i] in DIGITS || key[i] == '_')
      && (exists i :: 0 <= i < |key| && key[i] in LETTERS)
  {
    hide Upper, Digit;
    forall i | 0 <= i < |key|
      ensures Upper(key[i]) <==> key[i] in LETTERS
      ensures Digit(key[i]) <==> key[i] in DIGITS
    {
      UpperSet(key[i]);
      DigitSet(key[i]);
    }
    if c :| c in key && Upper(c) {
      var i :| 0 <= i < |key| && key[i] == c;
    }
  }

  /** Texts without the separator, joined, split again into themselves. */
  lemma {:induction false} SplitRejoined(parts: seq<string>, separator: char)
    requires parts != [] && forall i :: 0 <= i < |parts| ==> separator !in parts[i]
    ensures Split(Rejoined(parts, separator), separator) == parts
    decreases |parts|, |parts[0]|
  {
    var text, x := Rejoined(parts, separator), parts[0];
    if x != "" {
      var shorter := [x[1..]] + parts[1..];
      assert x == [x[0]] + x[1..] && shorter[1..] == parts[1..];
      assert text[1..] == Rejoined(shorter, separator) && text[0] == x[0];
      SplitRejoined(shorter, separator);
      assert parts == [x] + parts[1..];
    } else if |parts| > 1 {
      assert text == [separator] + Rejoined(parts[1..], separator);
      SplitRejoined(parts[1..], separator);
      assert parts == [""] + parts[1..];
    } else {
      assert parts == [""];
    }
  }

  /** A path, given by its parts, is good exactly when it is the app's own and steps nowhere aside. */
  lemma GoodPathExact(app: string, parts: seq<string>)
    requires parts != [] && forall i :: 0 <= i < |parts| ==> '/' !in parts[i]
    ensures var path := Rejoined(parts, '/');
      GoodPath(app, path) <==>
        && "/api/v1/" + ShortName(app) + "/" <= path
        && (forall i :: 0 <= i < |parts| ==> parts[i] != "." && parts[i] != "..")
        && (forall i :: 0 <= i < |path| ==> path[i] != '?' && path[i] != '#' && path[i] != '\\')
  {
    SplitRejoined(parts, '/');
    hide Split, Rejoined, ShortName;
  }

  function Prefix(app: string): string {
    "/api/v1/" + ShortName(app) + "/"
  }

  predicate GoodPath(app: string, path: string) {
    Prefix(app) <= path && "." !in Split(path, '/') && ".." !in Split(path, '/')
    && '?' !in path && '#' !in path && '\\' !in path
  }

  predicate GoodPaths(app: string, paths: seq<Option<string>>) {
    forall p :: p in paths ==> p.Some? && GoodPath(app, p.value)
  }

  function Texts(paths: seq<Option<string>>): seq<string>
    requires forall p :: p in paths ==> p.Some?
  {
    if paths == [] then [] else [paths[0].value] + Texts(paths[1..])
  }

  // ---- What the loops compute ----

  datatype Collected = Collected(additions: Namespace, paths: seq<string>)

  function CollectEntries(ns: Namespace, app: string, entries: seq<Entry>, additions: Namespace)
    : Result<Namespace, Error>
    decreases |entries|
  {
    if entries == [] then Ok(additions)
    else
      var e := entries[0];
      if e.key.None? || !ValidKey(e.key.value) then Err(InvalidKey(app))
      else if e.key.value in ns || e.key.value in additions then Err(KeyTaken(app, e.key.value))
      else CollectEntries(ns, app, entries[1..], additions[e.key.value := e.value])
  }

  function CollectApp(ns: Namespace, a: App, c: Collected): Result<Collected, Error> {
    if a.contribution.None? then Ok(c)
    else
      var declared := a.contribution.value;
      if declared.settings.None? then Err(NotADict(a.name))
      else
        match CollectEntries(ns, a.name, declared.settings.value, c.additions)
        case Err(e) => Err(e)
        case Ok(additions) =>
          if declared.publicPaths.None? || !GoodPaths(a.name, declared.publicPaths.value)
          then Err(PathOutside(a.name))
          else Ok(Collected(additions, c.paths + Texts(declared.publicPaths.value)))
  }

  function Collect(ns: Namespace, apps: seq<App>, c: Collected): Result<Collected, Error>
    decreases |apps|
  {
    if apps == [] then Ok(c)
    else
      match CollectApp(ns, apps[0], c)
      case Err(e) => Err(e)
      case Ok(next) => Collect(ns, apps[1..], next)
  }

  /** `dict.fromkeys`: the first occurrence of each, in order. */
  function Firsts(paths: seq<string>): seq<string>
    decreases |paths|
  {
    if paths == [] then []
    else
      var rest, last := Firsts(paths[..|paths| - 1]), paths[|paths| - 1];
      if last in rest then rest else rest + [last]
  }

  predicate HostSound(ns: Namespace) {
    PUBLIC_PATHS in ns ==> ns[PUBLIC_PATHS].Paths?
  }

  function HostPaths(ns: Namespace): seq<string>
    requires HostSound(ns)
  {
    if PUBLIC_PATHS in ns then ns[PUBLIC_PATHS].paths else []
  }

  /** The namespace after a merge, or the error that leaves it alone. */
  function Merged(ns: Namespace, apps: seq<App>): Result<Namespace, Error>
    requires HostSound(ns)
  {
    match Collect(ns, apps, Collected(map[], HostPaths(ns)))
    case Err(e) => Err(e)
    case Ok(c) => Ok((ns + c.additions)[PUBLIC_PATHS := Paths(Firsts(c.paths))])
  }

  class Host {
    var settings: Namespace

    constructor (settings: Namespace)
      ensures this.settings == settings
    {
      this.settings := settings;
    }

    method ApplyLocalAppSettings(apps: seq<App>) returns (failure: Option<Error>)
      requires HostSound(settings)
      modifies this
      ensures match Merged(old(settings), apps)
              case Ok(after) => failure == None && settings == after
              case Err(e) => failure == Some(e) && settings == old(settings)
    {
      hide ValidKey, GoodPath, Firsts;
      var additions: Namespace := map[];
      var publicPaths := HostPaths(settings);
      var i := 0;
      while i < |apps|
        invariant 0 <= i <= |apps| && settings == old(settings)
        invariant Collect(settings, apps, Collected(map[], HostPaths(settings)))
               == Collect(settings, apps[i..], Collected(additions, publicPaths))
      {
        var a := apps[i];
        assert apps[i..][0] == a && apps[i..][1..] == apps[i + 1..];
        i := i + 1;
        if a.contribution.None? {
          continue;
        }
        var declared := a.contribution.value;
        if declared.settings.None? {
          return Some(NotADict(a.name));
        }
        var entries: seq<Entry> := declared.settings.value;
        ghost var before := additions;
        var j := 0;
        while j < |entries|
          invariant 0 <= j <= |entries| && settings == old(settings)
          invariant CollectEntries(settings, a.name, entries, before)
                 == CollectEntries(settings, a.name, entries[j..], additions)
        {
          var e := entries[j];
          assert entries[j..][0] == e && entries[j..][1..] == entries[j + 1..];
          if e.key.None? || !ValidKey(e.key.value) {
            return Some(InvalidKey(a.name));
          }
          if e.key.value in settings || e.key.value in additions {
            return Some(KeyTaken(a.name, e.key.value));
          }
          additions := additions[e.key.value := e.value];
          j := j + 1;
        }
        if declared.publicPaths.None? || !GoodPaths(a.name, declared.publicPaths.value) {
          return Some(PathOutside(a.name));
        }
        publicPaths := publicPaths + Texts(declared.publicPaths.value);
      }
      settings := (settings + additions)[PUBLIC_PATHS := Paths(Firsts(publicPaths))];
      return None;
    }
  }

  // ---- Which lists of apps are accepted, and what they merge to ----

  function Items(a: App): seq<Entry> {
    if a.contribution.Some? && a.contribution.value.settings.Some? then a.contribution.value.settings.value else []
  }

  function Keys(a: App): set<string> {
    set e | e in Items(a) && e.key.Some? :: e.key.value
  }

  function AppPaths(a: App): seq<string> {
    if a.contribution.Some? && a.contribution.value.publicPaths.Some?
       && GoodPaths(a.name, a.contribution.value.publicPaths.value)
    then Texts(a.contribution.value.publicPaths.value)
    else []
  }

  predicate ValidEntry(e: Entry) {
    e.key.Some? && ValidKey(e.key.value)
  }

  /** The declarations of one app, looked at on their own. */
  predicate ValidApp(a: App) {
    a.contribution.Some? ==>
      && a.contribution.value.settings.Some?
      && (forall e :: e in Items(a) ==> ValidEntry(e))
      && a.contribution.value.publicPaths.Some?
      && GoodPaths(a.name, a.contribution.value.publicPaths.value)
  }

  predicate Fits(a: App, used: set<string>) {
    ValidApp(a) && Keys(a) !! used
  }

  /** Every app valid, no key the host's, and no key declared by two apps. */
  predicate Acceptable(apps: seq<App>, used: set<string>) {
    && (forall i :: 0 <= i < |apps| ==> Fits(apps[i], used))
    && (forall i, j :: 0 <= i < j < |apps| ==> Keys(apps[i]) !! Keys(apps[j]))
  }

  predicate Holds(ns: Namespace, e: Entry) {
    e.key.Some? && e.key.value in ns && ns[e.key.value] == e.value
  }

  lemma {:induction false} EntriesExact(ns: Namespace, app: string, entries: seq<Entry>, additions: Namespace)
    requires forall i, j :: 0 <= i < j < |entries| ==> entries[i].key != entries[j].key
    ensures var r := CollectEntries(ns, app, entries, additions);
      && (r.Ok? <==> forall e :: e in entries ==>
            ValidEntry(e) && e.key.value !in ns && e.key.value !in additions)
      && (r.Ok? ==>
            && (forall e :: e in entries ==> Holds(r.value, e))
            && (forall k :: k in additions ==> k in r.value && r.value[k] == additions[k])
            && r.value.Keys == additions.Keys + set e | e in entries && e.key.Some? :: e.key.value)
    decreases |entries|
  {
    hide ValidKey;
    if entries != [] {
      var e, rest := entries[0], entries[1..];
      assert forall x :: x in entries <==> x == e || x in rest;
      if ValidEntry(e) && e.key.value !in ns && e.key.value !in additions {
        EntriesExact(ns, app, rest, additions[e.key.value := e.value]);
      }
    }
  }

  lemma AppExact(ns: Namespace, a: App, c: Collected)
    ensures var r := CollectApp(ns, a, c);
      && (r.Ok? <==> Fits(a, ns.Keys + c.additions.Keys))
      && (r.Ok? ==>
            && (forall e :: e in Items(a) ==> Holds(r.value.additions, e))
            && (forall k :: k in c.additions ==> k in r.value.additions && r.value.additions[k] == c.additions[k])
            && r.value.additions.Keys == c.additions.Keys + Keys(a)
            && r.value.paths == c.paths + AppPaths(a))
  {
    hide ValidKey, GoodPath, CollectEntries;
    if a.contribution.Some? && a.contribution.value.settings.Some? {
      EntriesExact(ns, a.name, Items(a), c.additions);
      assert forall e :: e in Items(a) && e.key.Some? ==> e.key.value in Keys(a);
    }
  }

  function AllPaths(apps: seq<App>): seq<string>
    decreases |apps|
  {
    if apps == [] then [] else AppPaths(apps[0]) + AllPaths(apps[1..])
  }

  lemma AcceptableStep(apps: seq<App>, used: set<string>)
    requires apps != []
    ensures Acceptable(apps, used) <==> Fits(apps[0], used) && Acceptable(apps[1..], used + Keys(apps[0]))
  {
    hide ValidApp, Keys;
    var rest := apps[1..];
    if Fits(apps[0], used) && Acceptable(rest, used + Keys(apps[0])) {
      forall i | 0 <= i < |apps|
        ensures Fits(apps[i], used) && (i > 0 ==> Keys(apps[0]) !! Keys(apps[i]))
      {
        if i > 0 {
          assert Fits(rest[i - 1], used + Keys(apps[0]));
        }
      }
      forall i, j | 0 <= i < j < |apps|
        ensures Keys(apps[i]) !! Keys(apps[j])
      {
        if i > 0 {
          assert Keys(rest[i - 1]) !! Keys(rest[j - 1]);
        }
      }
    }
    if Acceptable(apps, used) {
      forall i | 0 <= i < |rest|
        ensures Fits(rest[i], used + Keys(apps[0]))
      {
        assert Fits(apps[i + 1], used) && Keys(apps[0]) !! Keys(apps[i + 1]);
      }
    }
  }

  lemma {:induction false} CollectExact(ns: Namespace, apps: seq<App>, c: Collected)
    ensures var r := Collect(ns, apps, c);
      && (r.Ok? <==> Acceptable(apps, ns.Keys + c.additions.Keys))
      && (r.Ok? ==>
            && (forall a, e :: a in apps && e in Items(a) ==> Holds(r.value.additions, e))
            && (forall k :: k in c.additions ==> k in r.value.additions && r.value.additions[k] == c.additions[k])
            && (forall k :: k in r.value.additions ==> k in c.additions || exists a :: a in apps && k in Keys(a))
            && r.value.paths == c.paths + AllPaths(apps))
    decreases |apps|
  {
    hide ValidApp, Keys, Items, CollectApp, AppPaths;
    if apps != [] {
      var a, rest := apps[0], apps[1..];
      var used := ns.Keys + c.additions.Keys;
      AppExact(ns, a, c);
      AcceptableStep(apps, used);
      if Fits(a, used) {
        var next := CollectApp(ns, a, c).value;
        CollectExact(ns, rest, next);
        assert ns.Keys + next.additions.Keys == used + Keys(a);
        assert forall x :: x in apps <==> x == a || x in rest;
      }
    }
  }

  /** What an accepted merge leaves in the namespace. */
  ghost predicate MergedFrom(after: Namespace, ns: Namespace, apps: seq<App>)
    requires HostSound(ns)
  {
    && (forall k :: k in ns && k != PUBLIC_PATHS ==> k in after && after[k] == ns[k])
    && (forall a, e :: a in apps && e in Items(a) && e.key != Some(PUBLIC_PATHS) ==> Holds(after, e))
    && (forall k :: k in after && k != PUBLIC_PATHS ==> k in ns || exists a :: a in apps && k in Keys(a))
    && PUBLIC_PATHS in after && after[PUBLIC_PATHS] == Paths(Firsts(HostPaths(ns) + AllPaths(apps)))
  }

  /**
    All or nothing: the merge succeeds exactly when every app is valid and no key is declared
    twice or by the host; then the host keeps its values, and every app's keys hold its values.
   */
  lemma {:induction false} MergeExact(ns: Namespace, apps: seq<App>)
    requires HostSound(ns)
    ensures Merged(ns, apps).Ok? <==> Acceptable(apps, ns.Keys)
    ensures Merged(ns, apps).Ok? ==> MergedFrom(Merged(ns, apps).value, ns, apps)
  {
    hide Acceptable, Items, Keys, Firsts, AllPaths, Collect;
    var c := Collected(map[], HostPaths(ns));
    CollectExact(ns, apps, c);
    assert ns.Keys + c.additions.Keys == ns.Keys;
    if Acceptable(apps, ns.Keys) {
      var additions := Collect(ns, apps, c).value.additions;
      forall k | k in additions
        ensures k !in ns
      {
        var a :| a in apps && k in Keys(a);
        KeysAreNew(apps, ns.Keys, a);
      }
      var after := Merged(ns, apps).value;
      assert forall k :: k in ns && k != PUBLIC_PATHS ==> k in after && after[k] == ns[k];
      forall a, e | a in apps && e in Items(a) && e.key != Some(PUBLIC_PATHS)
        ensures Holds(after, e)
      {
        assert Holds(additions, e);
        assert e.key == Some(e.key.value);
      }
      assert forall k :: k in after && k != PUBLIC_PATHS ==> k in ns || exists a :: a in apps && k in Keys(a);
    }
  }

  lemma KeysAreNew(apps: seq<App>, used: set<string>, a: App)
    requires Acceptable(apps, used) && a in apps
    ensures Keys(a) !! used
  {
    hide ValidApp, Keys;
    var i :| 0 <= i < |apps| && apps[i] == a;
    assert Fits(apps[i], used);
  }

  /**
    An app's value is in the merged namespace unless its key is the one the merge writes itself
    and the value is not the very list of paths it writes.
   */
  lemma ValueKept(ns: Namespace, apps: seq<App>, a: App, e: Entry)
    requires HostSound(ns) && Merged(ns, apps).Ok? && a in apps && e in Items(a)
    ensures Holds(Merged(ns, apps).value, e) <==>
      e.key != Some(PUBLIC_PATHS) || e.value == Paths(Firsts(HostPaths(ns) + AllPaths(apps)))
  {
    hide Acceptable, Items, Keys, Firsts, AllPaths, Merged;
    MergeExact(ns, apps);
  }

  lemma ReservedIsValid()
    ensures ValidKey(PUBLIC_PATHS)
  {
    var key := PUBLIC_PATHS;
    assert key[0] in key && Upper(key[0]);
  }

  /** An app that declares the reserved key is accepted by a host that does not, and its list is lost. */
  lemma ReservedKeyLost(name: string, paths: seq<string>)
    requires paths != []
    ensures var e := Entry(Some(PUBLIC_PATHS), Paths(paths));
      var app := App(name, Some(Contribution(Some([e]), Some([]))));
      var r := Merged(map[], [app]);
      r.Ok? && e in Items(app) && !Holds(r.value, e) && r.value[PUBLIC_PATHS] == Paths([])
  {
    ReservedIsValid();
    hide ValidKey;
    var e := Entry(Some(PUBLIC_PATHS), Paths(paths));
    var app := App(name, Some(Contribution(Some([e]), Some([]))));
    var empty: Namespace := map[];
    assert ValidApp(app) && Acceptable([app], empty.Keys);
    MergeExact(empty, [app]);
    assert [app][1..] == [] && AppPaths(app) == [];
    assert AllPaths([app]) == [];
  }

  // ---- Public paths ----

  function FirstAt(s: seq<string>, x: string): (k: nat)
    requires x in s
    ensures k < |s| && s[k] == x && x !in s[..k]
  {
    if s[0] == x then 0
    else
      assert x in s[1..];
      var k := 1 + FirstAt(s[1..], x);
      assert s[..k] == [s[0]] + s[1..][..k - 1];
      k
  }

  lemma FirstAtIs(s: seq<string>, x: string, k: nat)
    requires x in s && k < |s|
    ensures s[k] == x && x !in s[..k] ==> FirstAt(s, x) == k
  {
    var j := FirstAt(s, x);
    assert j < k ==> s[..k][j] == x;
    assert k < j ==> s[..j][k] == s[k];
  }

  /** Nothing added, nothing lost, nothing twice, and first occurrences stay in order. */
  lemma {:induction false} FirstsExact(s: seq<string>)
    ensures forall x :: x in Firsts(s) <==> x in s
    ensures forall i, j :: 0 <= i < j < |Firsts(s)| ==>
      && Firsts(s)[i] != Firsts(s)[j]
      && Firsts(s)[i] in s && Firsts(s)[j] in s
      && FirstAt(s, Firsts(s)[i]) < FirstAt(s, Firsts(s)[j])
    decreases |s|
  {
    if s != [] {
      var front, last := s[..|s| - 1], s[|s| - 1];
      FirstsExact(front);
      assert s == front + [last];
      var rest := Firsts(front);
      forall x | x in front
        ensures x in s && FirstAt(s, x) == FirstAt(front, x)
      {
        var k := FirstAt(front, x);
        assert s[..k] == front[..k];
        FirstAtIs(s, x, k);
      }
      if last !in rest {
        assert s[..|s| - 1] == front;
        FirstAtIs(s, last, |s| - 1);
      }
      hide FirstAt;
      var all := Firsts(s);
      forall i, j | 0 <= i < j < |all|
        ensures all[i] != all[j] && all[i] in s && all[j] in s && FirstAt(s, all[i]) < FirstAt(s, all[j])
      {
        assert all[i] == rest[i];
        if j < |rest| {
          assert all[j] == rest[j];
          assert FirstAt(front, rest[i]) < FirstAt(front, rest[j]);
        }
      }
    }
  }

  lemma {:induction false} TextsGood(app: string, paths: seq<Option<string>>, p: string)
    requires GoodPaths(app, paths) && p in Texts(paths)
    ensures GoodPath(app, p)
  {
    if p != paths[0].value {
      TextsGood(app, paths[1..], p);
    } else {
      assert paths[0] in paths;
    }
  }

  lemma {:induction false} AllPathsExact(apps: seq<App>, p: string)
    ensures p in AllPaths(apps) <==> exists a :: a in apps && p in AppPaths(a)
    decreases |apps|
  {
    hide AppPaths;
    if apps != [] {
      AllPathsExact(apps[1..], p);
      assert forall x :: x in apps <==> x == apps[0] || x in apps[1..];
    }
  }

  /** The texts of a declaration, in order. */
  lemma {:induction false} TextsExact(paths: seq<Option<string>>)
    requires forall p :: p in paths ==> p.Some?
    ensures |Texts(paths)| == |paths| && forall i :: 0 <= i < |paths| ==> paths[i] == Some(Texts(paths)[i])
  {
    if paths != [] {
      assert forall p :: p in paths[1..] ==> p in paths;
      TextsExact(paths[1..]);
      assert paths[0] in paths;
      forall i | 0 < i < |paths|
        ensures paths[i] == Some(Texts(paths)[i])
      {
        assert paths[i] == paths[1..][i - 1] && Texts(paths)[i] == Texts(paths[1..])[i - 1];
      }
    }
  }

  /** The path is one of those the app's module declares. */
  predicate Declares(a: App, p: string) {
    && a.contribution.Some? && a.contribution.value.publicPaths.Some?
    && Some(p) in a.contribution.value.publicPaths.value
  }

  lemma AppPathsExact(a: App, p: string)
    requires ValidApp(a)
    ensures p in AppPaths(a) <==> Declares(a, p)
  {
    hide GoodPath, ValidKey, Texts;
    if a.contribution.Some? {
      var declared := a.contribution.value.publicPaths.value;
      TextsExact(declared);
      assert AppPaths(a) == Texts(declared);
      if Some(p) in declared {
        var i :| 0 <= i < |declared| && declared[i] == Some(p);
        assert Texts(declared)[i] == p;
      }
      if p in Texts(declared) {
        var i :| 0 <= i < |declared| && Texts(declared)[i] == p;
        assert declared[i] == Some(p);
      }
    }
  }

  /** After an accepted merge exactly the host's own public paths and those the apps declare are public. */
  lemma PublicExact(ns: Namespace, apps: seq<App>, p: string)
    requires HostSound(ns) && Merged(ns, apps).Ok?
    ensures var after := Merged(ns, apps).value;
      && PUBLIC_PATHS in after && after[PUBLIC_PATHS].Paths?
      && (p in after[PUBLIC_PATHS].paths <==>
            || (PUBLIC_PATHS in ns && p in ns[PUBLIC_PATHS].paths)
            || exists a :: a in apps && Declares(a, p))
  {
    MergeExact(ns, apps);
    FirstsExact(HostPaths(ns) + AllPaths(apps));
    AllPathsExact(apps, p);
    hide AppPaths, ValidApp, Keys, Firsts, AllPaths, Merged;
    forall a | a in apps
      ensures p in AppPaths(a) <==> Declares(a, p)
    {
      var i :| 0 <= i < |apps| && apps[i] == a;
      assert Fits(apps[i], ns.Keys);
      AppPathsExact(a, p);
    }
  }

  /** A path becomes public only if the host says so or it lies under the prefix of an app that does. */
  lemma PublicOnlyByOwner(ns: Namespace, apps: seq<App>, p: string)
    requires HostSound(ns) && Merged(ns, apps).Ok?
    requires p in Firsts(HostPaths(ns) + AllPaths(apps)) && p !in HostPaths(ns)
    ensures exists a :: a in apps && p in AppPaths(a) && GoodPath(a.name, p)
  {
    FirstsExact(HostPaths(ns) + AllPaths(apps));
    AllPathsExact(apps, p);
    hide GoodPath, Texts, Firsts, AllPaths, Merged;
    var a :| a in apps && p in AppPaths(a);
    TextsGood(a.name, a.contribution.value.publicPaths.value, p);
  }

  /** One path is under the prefixes of two apps only when they end in the same name. */
  lemma PrefixesApart(a: string, b: string, path: string)
    requires Prefix(a) <= path && Prefix(b) <= path
    ensures '/' !in ShortName(a) && '/' !in ShortName(b) ==> ShortName(a) == ShortName(b)
  {
    hide ShortName;
    var m, n := |ShortName(a)|, |ShortName(b)|;
    assert path[8..8 + m] == ShortName(a) && path[8 + m] == '/';
    assert path[8..8 + n] == ShortName(b) && path[8 + n] == '/';
    if m < n {
      assert ShortName(b)[m] == path[8 + m];
    } else if n < m {
      assert ShortName(a)[n] == path[8 + n];
    }
  }

  // ---- Order ----

  lemma CountedTwice(apps: seq<App>, i: nat, j: nat)
    requires i < j < |apps| && apps[i] == apps[j]
    ensures multiset(apps)[apps[i]] >= 2
  {
    assert apps == apps[..j] + [apps[j]] + apps[j + 1..];
    assert apps[..j][i] == apps[i];
    assert apps[i] in multiset(apps[..j]);
  }

  lemma FoundTwice(apps: seq<App>, a: App) returns (i: nat, j: nat)
    requires multiset(apps)[a] >= 2
    ensures i < j < |apps| && apps[i] == apps[j] == a
  {
    assert a in multiset(apps);
    j :| 0 <= j < |apps| && apps[j] == a;
    var rest := apps[..j] + apps[j + 1..];
    assert apps == apps[..j] + [apps[j]] + apps[j + 1..];
    assert multiset(apps) == multiset(rest) + multiset{a};
    assert a in multiset(rest);
    i :| 0 <= i < |rest| && rest[i] == a;
    if i < j {
      assert apps[i] == a;
    } else {
      i, j := j, i + 1;
    }
  }

  lemma AcceptableInAnyOrder(apps: seq<App>, other: seq<App>, used: set<string>)
    requires multiset(apps) == multiset(other) && Acceptable(apps, used)
    ensures Acceptable(other, used)
  {
    hide Fits, Keys;
    forall i | 0 <= i < |other|
      ensures Fits(other[i], used)
    {
      assert other[i] in multiset(apps);
    }
    forall i, j | 0 <= i < j < |other|
      ensures Keys(other[i]) !! Keys(other[j])
    {
      if other[i] == other[j] {
        CountedTwice(other, i, j);
        var m, n := FoundTwice(apps, other[i]);
        assert Keys(apps[m]) !! Keys(apps[n]);
      } else {
        assert other[i] in multiset(apps) && other[j] in multiset(apps);
        var m :| 0 <= m < |apps| && apps[m] == other[i];
        var n :| 0 <= n < |apps| && apps[n] == other[j];
        if m < n {
          assert Keys(apps[m]) !! Keys(apps[n]);
        } else {
          assert Keys(apps[n]) !! Keys(apps[m]);
        }
      }
    }
  }

  ghost predicate Included(first: Namespace, second: Namespace) {
    forall k :: k in first && k != PUBLIC_PATHS ==> k in second && second[k] == first[k]
  }

  lemma {:induction false} MergeIncluded(ns: Namespace, apps: seq<App>, other: seq<App>)
    requires HostSound(ns) && multiset(apps) == multiset(other)
    requires Merged(ns, apps).Ok? && Merged(ns, other).Ok?
    ensures Included(Merged(ns, apps).value, Merged(ns, other).value)
    ensures forall p :: p in Firsts(HostPaths(ns) + AllPaths(apps)) ==> p in Firsts(HostPaths(ns) + AllPaths(other))
  {
    hide Items, Firsts, AllPaths, Merged, Acceptable, AppPaths;
    MergeExact(ns, apps);
    MergeExact(ns, other);
    var one, two := Merged(ns, apps).value, Merged(ns, other).value;
    forall a | a in apps
      ensures a in other
    {
      assert a in multiset(other);
    }
    forall k | k in one && k != PUBLIC_PATHS
      ensures k in two && two[k] == one[k]
    {
      if k !in ns {
        var a :| a in apps && k in Keys(a);
        var e :| e in Items(a) && e.key == Some(k);
        assert Holds(one, e) && Holds(two, e);
      }
    }
    FirstsExact(HostPaths(ns) + AllPaths(apps));
    FirstsExact(HostPaths(ns) + AllPaths(other));
    forall p | p in AllPaths(apps)
      ensures p in AllPaths(other)
    {
      AllPathsExact(apps, p);
      AllPathsExact(other, p);
    }
  }

  /**
    The order of the apps does not matter: a list is accepted in one order exactly when it is in
    every other, with the same settings and the same set of public paths.
   */
  lemma OrderFree(ns: Namespace, apps: seq<App>, other: seq<App>)
    requires HostSound(ns) && multiset(apps) == multiset(other)
    ensures Merged(ns, apps).Ok? <==> Merged(ns, other).Ok?
    ensures Merged(ns, apps).Ok? ==>
      && Included(Merged(ns, apps).value, Merged(ns, other).value)
      && Included(Merged(ns, other).value, Merged(ns, apps).value)
      && (forall p :: p in Firsts(HostPaths(ns) + AllPaths(apps)) <==> p in Firsts(HostPaths(ns) + AllPaths(other)))
  {
    hide Items, Keys, Firsts, AllPaths, Merged, Acceptable, Included;
    MergeExact(ns, apps);
    MergeExact(ns, other);
    if Acceptable(apps, ns.Keys) {
      AcceptableInAnyOrder(apps, other, ns.Keys);
      MergeIncluded(ns, apps, other);
      MergeIncluded(ns, other, apps);
    }
    if Acceptable(other, ns.Keys) {
      AcceptableInAnyOrder(other, apps, ns.Keys);
    }
  }
}
