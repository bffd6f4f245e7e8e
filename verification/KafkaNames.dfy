/** The names of Kafka topics, users and passwords. */
module KafkaNames {

  const MAX_NAME_LEN := 63

  datatype ResourceType = Events(app: string) | Users(app: string) | Passwords(app: string) | Commands(app: string)

  /** The library functions: lower case by character, and the 32 hexadecimal digits of MD5. */
  datatype Library = Library(lower: char -> char, md5: string -> string)

  predicate IsAlphanumeric(c: char) {
    'a' <= c <= 'z' || '0' <= c <= '9'
  }

  predicate IsNameChar(c: char) {
    c == '-' || IsAlphanumeric(c)
  }

  predicate IsHash(h: string) {
    |h| == 32 && forall i :: 0 <= i < |h| ==> IsAlphanumeric(h[i])
  }

  ghost predicate Sound(lib: Library) {
    && (forall c :: IsNameChar(c) ==> lib.lower(c) == c)
    && (forall s :: IsHash(lib.md5(s)))
  }

  // ----- the pattern of names -----

  /** `[a-z0-9]([-a-z0-9]*[a-z0-9])?` */
  predicate IsLabel(s: string) {
    && s != ""
    && IsAlphanumeric(s[0])
    && IsAlphanumeric(s[|s| - 1])
    && forall i :: 0 <= i < |s| ==> IsNameChar(s[i])
  }

  /** Labels with separators. The pattern is a raw string in which the backslash before the dot is doubled, so a
      separator is a backslash and one arbitrary character, and not a dot. */
  predicate Matches(s: string)
    decreases |s|
  {
    || IsLabel(s)
    || exists i | 0 <= i < |s| - 1 ::
         IsLabel(s[..i]) && s[i] == '\\' && s[i + 1] != '\n' && Matches(s[i + 2..])
  }

  /** The length of a character in UTF-8. */
  function Width(c: char): nat {
    if c < '\U{80}' then 1 else if c < '\U{800}' then 2 else if c < '\U{10000}' then 3 else 4
  }

  function ByteLength(s: string): nat {
    if s == "" then 0 else ByteLength(s[..|s| - 1]) + Width(s[|s| - 1])
  }

  // ----- the names -----

  predicate IsSimple(prefix: string, resource: string) {
    ByteLength(prefix + "-" + resource) < MAX_NAME_LEN && Matches(resource)
  }

  function ResourceName(lib: Library, prefix: string, hashedPrefix: string, resource: string): string {
    if IsSimple(prefix, resource) then prefix + "-" + resource
    else hashedPrefix + "-" + lib.md5(resource) + "-" + resource
  }

  function CleanChar(lib: Library, c: char): char {
    if IsNameChar(lib.lower(c)) then lib.lower(c) else '-'
  }

  function Clean(lib: Library, s: string): string {
    seq(|s|, i requires 0 <= i < |s| => CleanChar(lib, s[i]))
  }

  function Take(s: string, n: nat): string {
    if |s| <= n then s else s[..n]
  }

  function TrimEnd(s: string): string {
    if s != "" && s[|s| - 1] == '-' then TrimEnd(s[..|s| - 1]) else s
  }

  function Finish(lib: Library, name: string): string {
    TrimEnd(Take(Clean(lib, name), MAX_NAME_LEN))
  }

  function MakeName(lib: Library, target: ResourceType): string {
    match target
    case Events(app) => Finish(lib, ResourceName(lib, "events", "evt", app))
    case Users(app) => Finish(lib, ResourceName(lib, "user", "usr", app))
    case Passwords(app) => Finish(lib, ResourceName(lib, "password", "pwd", app))
    case Commands(_) => "iot-commands"
  }

  function Prefix(t: ResourceType): string {
    match t case Events(_) => "events" case Users(_) => "user" case Passwords(_) => "password" case Commands(_) => "iot"
  }

  function HashedPrefix(t: ResourceType): string {
    match t case Events(_) => "evt" case Users(_) => "usr" case Passwords(_) => "pwd" case Commands(_) => "iot"
  }

  // ----- trimming, lengths, and the pattern -----

  lemma {:induction false} TrimEndKeeps(s: string)
    ensures TrimEnd(s) <= s
    ensures TrimEnd(s) != "" ==> TrimEnd(s)[|TrimEnd(s)| - 1] != '-'
    ensures forall k :: |TrimEnd(s)| <= k < |s| ==> s[k] == '-'
  {
    if s != "" && s[|s| - 1] == '-' {
      TrimEndKeeps(s[..|s| - 1]);
    }
  }

  lemma {:induction false} ByteLengthBound(s: string)
    ensures ByteLength(s) >= |s|
    ensures (forall i :: 0 <= i < |s| ==> IsNameChar(s[i])) ==> ByteLength(s) == |s|
  {
    if s != "" {
      ByteLengthBound(s[..|s| - 1]);
    }
  }

  lemma {:induction false} ByteLengthOfAscii(s: string)
    requires forall i :: 0 <= i < |s| ==> s[i] < '\U{80}'
    ensures ByteLength(s) == |s|
  {
    if s != "" {
      ByteLengthOfAscii(s[..|s| - 1]);
    }
  }

  lemma {:induction false} MatchEnds(s: string)
    requires Matches(s)
    ensures s != "" && IsAlphanumeric(s[0]) && IsAlphanumeric(s[|s| - 1])
    ensures '\\' !in s ==> IsLabel(s)
    decreases |s|
  {
    if !IsLabel(s) {
      var i :| 0 <= i < |s| - 1 && IsLabel(s[..i]) && s[i] == '\\' && s[i + 1] != '\n' && Matches(s[i + 2..]);
      MatchEnds(s[i + 2..]);
      EndsOfParts(s, i);
    }
  }

  lemma EndsOfParts(s: string, i: nat)
    requires i + 2 < |s| && IsLabel(s[..i])
    ensures s[0] == s[..i][0] && s[|s| - 1] == s[i + 2..][|s[i + 2..]| - 1]
  {
  }

  lemma CleanLabel(lib: Library, s: string)
    requires Sound(lib) && Matches(s)
    ensures IsLabel(Clean(lib, s))
  {
    MatchEnds(s);
  }

  /** What is made of a name that is short enough and ends well. */
  lemma FinishShort(lib: Library, name: string)
    requires Sound(lib) && name != "" && |name| <= MAX_NAME_LEN && IsAlphanumeric(name[|name| - 1])
    ensures Finish(lib, name) == Clean(lib, name)
  {
    TrimEndKeeps(Clean(lib, name));
  }

  /** A prefix that ends well survives. */
  lemma FinishKeeps(lib: Library, name: string, n: nat)
    requires Sound(lib) && 0 < n <= |name| && n <= MAX_NAME_LEN && IsAlphanumeric(name[n - 1])
    ensures Clean(lib, name[..n]) <= Finish(lib, name)
  {
    var c := Take(Clean(lib, name), MAX_NAME_LEN);
    TrimEndKeeps(c);
    assert c[n - 1] == name[n - 1];
    assert Clean(lib, name[..n]) == c[..n] == Finish(lib, name)[..n];
  }

  // ----- the two routes -----

  lemma CleanSame(lib: Library, s: string)
    requires Sound(lib) && forall i :: 0 <= i < |s| ==> IsNameChar(s[i])
    ensures Clean(lib, s) == s
  {
  }

  lemma CleanConcat(lib: Library, s: string, t: string)
    ensures Clean(lib, s + t) == Clean(lib, s) + Clean(lib, t)
  {
  }

  lemma HeadsAreClean(lib: Library, t: ResourceType)
    requires Sound(lib)
    ensures Clean(lib, Prefix(t) + "-") == Prefix(t) + "-"
    ensures Prefix(t) + "-" + t.app == (Prefix(t) + "-") + t.app
  {
    CleanSame(lib, Prefix(t) + "-");
  }

  lemma SimpleRoute(lib: Library, t: ResourceType)
    requires Sound(lib) && !t.Commands? && IsSimple(Prefix(t), t.app)
    ensures MakeName(lib, t) == Prefix(t) + "-" + Clean(lib, t.app)
  {
    var head := Prefix(t) + "-";
    MatchEnds(t.app);
    ByteLengthBound(head + t.app);
    FinishShort(lib, head + t.app);
    CleanConcat(lib, head, t.app);
    HeadsAreClean(lib, t);
  }

  lemma HashedRoute(lib: Library, t: ResourceType)
    requires Sound(lib) && !t.Commands? && !IsSimple(Prefix(t), t.app)
    ensures HashedPrefix(t) + "-" + lib.md5(t.app) <= MakeName(lib, t)
  {
    var head := HashedPrefix(t) + "-" + lib.md5(t.app);
    assert IsHash(lib.md5(t.app));
    assert head[|head| - 1] == lib.md5(t.app)[31];
    var name := head + ("-" + t.app);
    assert name == HashedPrefix(t) + "-" + lib.md5(t.app) + "-" + t.app;
    assert name[..36] == head;
    FinishKeeps(lib, name, 36);
    CleanSame(lib, head);
  }

  // ----- what names are like -----

  /** Every name fits Kafka and Kubernetes: at most 63 characters out of `[-a-z0-9]`, and no dash at the end. */
  lemma NamesAreLegal(lib: Library, t: ResourceType)
    requires Sound(lib)
    ensures var name := MakeName(lib, t);
      && 0 < |name| <= 63
      && (forall i :: 0 <= i < |name| ==> 'a' <= name[i] <= 'z' || '0' <= name[i] <= '9' || name[i] == '-')
      && name[|name| - 1] != '-'
  {
    if !t.Commands? {
      FinishIsLegal(lib, ResourceName(lib, Prefix(t), HashedPrefix(t), t.app));
      if IsSimple(Prefix(t), t.app) {
        SimpleRoute(lib, t);
      } else {
        HashedRoute(lib, t);
      }
    }
  }

  lemma FinishIsLegal(lib: Library, name: string)
    ensures var r := Finish(lib, name);
      && |r| <= MAX_NAME_LEN
      && (forall i :: 0 <= i < |r| ==> IsNameChar(r[i]))
      && (r != "" ==> r[|r| - 1] != '-')
  {
    TrimEndKeeps(Take(Clean(lib, name), MAX_NAME_LEN));
  }

  /** A label that is short enough is used as it is, after the word for its kind. */
  lemma PlainNames(lib: Library, app: string)
    requires Sound(lib) && IsLabel(app)
    ensures |app| + 7 < 63 ==> MakeName(lib, Events(app)) == "events-" + app
    ensures |app| + 5 < 63 ==> MakeName(lib, Users(app)) == "user-" + app
    ensures |app| + 9 < 63 ==> MakeName(lib, Passwords(app)) == "password-" + app
  {
    PlainName(lib, Events(app), "events-");
    PlainName(lib, Users(app), "user-");
    PlainName(lib, Passwords(app), "password-");
  }

  lemma PlainName(lib: Library, t: ResourceType, head: string)
    requires Sound(lib) && !t.Commands? && IsLabel(t.app) && Prefix(t) + "-" == head
    ensures |t.app| + |head| < 63 ==> MakeName(lib, t) == head + t.app
  {
    HeadsAreClean(lib, t);
    ByteLengthBound(Prefix(t) + "-" + t.app);
    CleanSame(lib, t.app);
    if |t.app| + |head| < 63 {
      HeadIsName(t);
      SimpleRoute(lib, t);
    }
  }

  lemma HeadIsName(t: ResourceType)
    requires IsLabel(t.app) && |t.app| + |Prefix(t) + "-"| < 63
    ensures IsSimple(Prefix(t), t.app)
  {
    var name := Prefix(t) + "-" + t.app;
    assert forall i :: 0 <= i < |name| ==> IsNameChar(name[i]);
    ByteLengthBound(name);
  }

  function HashedHead(t: ResourceType): string {
    if t.Events? then "evt-" else if t.Users? then "usr-" else "pwd-"
  }

  /** All others get the word for the hashed kind, and the hash. */
  lemma HashedNamesStart(lib: Library, t: ResourceType)
    requires Sound(lib) && !t.Commands?
    requires !Matches(t.app) || |t.app| + (if t.Events? then 7 else if t.Users? then 5 else 9) >= 63
    ensures HashedHead(t) + lib.md5(t.app) <= MakeName(lib, t)
  {
    LongIsNotSimple(t);
    HashedHeads(t);
    HashedRoute(lib, t);
  }

  lemma HashedHeads(t: ResourceType)
    requires !t.Commands?
    ensures HashedPrefix(t) + "-" == HashedHead(t)
  {
  }

  lemma LongIsNotSimple(t: ResourceType)
    requires !t.Commands?
    requires !Matches(t.app) || |t.app| + (if t.Events? then 7 else if t.Users? then 5 else 9) >= 63
    ensures !IsSimple(Prefix(t), t.app)
  {
    ByteLengthBound(Prefix(t) + "-" + t.app);
  }

  /** The name gives the kind and the route away. */
  function Mark(t: ResourceType): string {
    if t.Commands? then "iot-"
    else if IsSimple(Prefix(t), t.app) then (Prefix(t) + "-")[..4]
    else (HashedPrefix(t) + "-")[..4]
  }

  lemma MarkIsKept(lib: Library, t: ResourceType)
    requires Sound(lib)
    ensures Mark(t) <= MakeName(lib, t)
  {
    if !t.Commands? {
      if IsSimple(Prefix(t), t.app) {
        SimpleRoute(lib, t);
      } else {
        HashedRoute(lib, t);
      }
    }
  }

  predicate SameKind(t: ResourceType, u: ResourceType) {
    t.Events? == u.Events? && t.Users? == u.Users? && t.Passwords? == u.Passwords?
  }

  lemma MarksDiffer(t: ResourceType, u: ResourceType)
    requires Mark(t) == Mark(u)
    ensures SameKind(t, u)
    ensures !t.Commands? ==> (IsSimple(Prefix(t), t.app) <==> IsSimple(Prefix(u), u.app))
  {
    assert Mark(t)[0] == Mark(u)[0] && Mark(t)[1] == Mark(u)[1] && Mark(t)[2] == Mark(u)[2];
  }

  lemma SameMarks(lib: Library, t: ResourceType, u: ResourceType)
    requires Sound(lib) && MakeName(lib, t) == MakeName(lib, u)
    ensures Mark(t) == Mark(u)
  {
    MarkIsKept(lib, t);
    MarkIsKept(lib, u);
    assert |Mark(t)| == 4 == |Mark(u)|;
  }

  // ----- which names collide -----

  lemma SimpleNames(lib: Library, t: ResourceType, u: ResourceType)
    requires Sound(lib) && !t.Commands? && SameKind(t, u)
    requires IsSimple(Prefix(t), t.app) && IsSimple(Prefix(u), u.app)
    ensures MakeName(lib, t) == MakeName(lib, u) <==> Clean(lib, t.app) == Clean(lib, u.app)
  {
    SimpleRoute(lib, t);
    SimpleRoute(lib, u);
    var head := Prefix(t) + "-";
    assert (head + Clean(lib, t.app))[|head|..] == Clean(lib, t.app);
    assert (head + Clean(lib, u.app))[|head|..] == Clean(lib, u.app);
  }

  lemma HashedNames(lib: Library, t: ResourceType, u: ResourceType)
    requires Sound(lib) && !t.Commands? && SameKind(t, u)
    requires !IsSimple(Prefix(t), t.app) && !IsSimple(Prefix(u), u.app)
    ensures MakeName(lib, t) == MakeName(lib, u) ==> lib.md5(t.app) == lib.md5(u.app)
  {
    HashedRoute(lib, t);
    HashedRoute(lib, u);
    assert IsHash(lib.md5(t.app)) && IsHash(lib.md5(u.app));
    if MakeName(lib, t) == MakeName(lib, u) {
      SamePart(MakeName(lib, t), HashedPrefix(t) + "-", lib.md5(t.app), lib.md5(u.app));
    }
  }

  lemma SamePart(name: string, head: string, h: string, h': string)
    requires |h| == |h'| && head + h <= name && head + h' <= name
    ensures h == h'
  {
    assert h == (head + h)[|head|..] && h' == (head + h')[|head|..];
  }

  /** When two names are the same, unless MD5 collides: exactly when they are of one kind, both take the simple
      route and they differ only in characters that are cleaned up. */
  lemma {:induction false} CollisionsAreExact(lib: Library, t: ResourceType, u: ResourceType)
    requires Sound(lib) && !t.Commands? && t != u && (t.app != u.app ==> lib.md5(t.app) != lib.md5(u.app))
    ensures MakeName(lib, t) == MakeName(lib, u) <==>
      && SameKind(t, u)
      && IsSimple(Prefix(t), t.app)
      && IsSimple(Prefix(u), u.app)
      && Clean(lib, t.app) == Clean(lib, u.app)
  {
    if MakeName(lib, t) == MakeName(lib, u) {
      SameMarks(lib, t, u);
      MarksDiffer(t, u);
    }
    if SameKind(t, u) {
      if IsSimple(Prefix(t), t.app) && IsSimple(Prefix(u), u.app) {
        SimpleNames(lib, t, u);
      } else if !IsSimple(Prefix(t), t.app) && !IsSimple(Prefix(u), u.app) {
        HashedNames(lib, t, u);
      }
    }
  }

  /** Distinct kinds and distinct applications get distinct names, for all application names without a backslash. */
  lemma {:induction false} NamesAreDistinct(lib: Library, t: ResourceType, u: ResourceType)
    requires Sound(lib) && !t.Commands? && t != u
    requires '\\' !in t.app && '\\' !in u.app && (t.app != u.app ==> lib.md5(t.app) != lib.md5(u.app))
    ensures MakeName(lib, t) != MakeName(lib, u)
  {
    CollisionsAreExact(lib, t, u);
    if IsSimple(Prefix(t), t.app) && IsSimple(Prefix(u), u.app) {
      MatchEnds(t.app);
      MatchEnds(u.app);
      CleanSame(lib, t.app);
      CleanSame(lib, u.app);
    }
  }

  function Rename(t: ResourceType, app: string): ResourceType {
    t.(app := app)
  }

  /** With a backslash the simple route is never safe: the cleaned up name is another application's. */
  lemma {:induction false} BackslashCollides(lib: Library, t: ResourceType)
    requires Sound(lib) && !t.Commands? && IsSimple(Prefix(t), t.app) && '\\' in t.app
    ensures var u := Rename(t, Clean(lib, t.app)); u != t && MakeName(lib, u) == MakeName(lib, t)
  {
    var u := Rename(t, Clean(lib, t.app));
    CleanIsSimple(lib, Prefix(t) + "-", t.app);
    assert IsSimple(Prefix(u), u.app);
    SimpleNames(lib, t, u);
  }

  lemma CleanIsSimple(lib: Library, head: string, app: string)
    requires Sound(lib) && ByteLength(head + app) < MAX_NAME_LEN && Matches(app)
    requires forall i :: 0 <= i < |head| ==> IsNameChar(head[i])
    ensures var c := Clean(lib, app);
      ByteLength(head + c) < MAX_NAME_LEN && Matches(c) && Clean(lib, c) == c && '\\' !in c
  {
    CleanLabel(lib, app);
    ByteLengthBound(head + app);
    ByteLengthBound(head + Clean(lib, app));
    CleanSame(lib, Clean(lib, app));
  }

  /** For example, a backslash and a dot, which the pattern was meant for without the backslash. */
  lemma BackslashDotCollides(lib: Library)
    requires Sound(lib) && lib.lower('.') == '.' && lib.lower('\\') == '\\'
    ensures MakeName(lib, Events("a\\.b")) == MakeName(lib, Events("a--b")) == "events-" + "a--b"
  {
    ExampleIsSimple("a\\.b");
    assert Clean(lib, "a\\.b") == "a--b";
    BackslashCollides(lib, Events("a\\.b"));
    PlainNames(lib, "a--b");
  }

  lemma ExampleIsSimple(name: string)
    requires name == "a\\.b"
    ensures IsSimple("events", name) && '\\' in name
  {
    assert IsLabel(name[..1]) && name[1] == '\\' && name[2] != '\n' && name[3..] == "b" && IsLabel("b");
    assert Matches(name);
    ByteLengthOfAscii("events" + "-" + name);
  }
}
