/** Breadcrumb generation for the dashboard header. A pathname is cut into
    its non-empty "/"-separated segments; each segment becomes a breadcrumb
    with a label, the URL of the path up to and including it, a flag for the
    last one and a flag saying whether it may be a link. The third segment of
    an `admin/user/<id>` path is labelled with the user's name. Segments
    "admin" and "user" are then hidden. Case conversion is ASCII only. */
module Breadcrumbs {
  import opened Common

  // ---------------------------------------------------------------------------
  // Characters and strings

  function LowerChar(c: char): char {
    if 'A' <= c <= 'Z' then (c as int + 32) as char else c
  }

  function UpperChar(c: char): char {
    if 'a' <= c <= 'z' then (c as int - 32) as char else c
  }

  /** `s.toLowerCase()`, for ASCII letters. */
  function ToLower(s: string): string {
    seq(|s|, i requires 0 <= i < |s| => LowerChar(s[i]))
  }

  /** `s.charAt(0).toUpperCase() + s.slice(1)`. */
  function CapitalizeFirstLetter(s: string): string {
    if s == [] then [] else [UpperChar(s[0])] + s[1..]
  }

  /** `s.replace(/\[|\]/g, "")`. */
  function RemoveBrackets(s: string): string {
    Filter(s, (ch: char) => ch != '[' && ch != ']')
  }

  /** The whitespace `String.prototype.trim` removes, for ASCII. */
  predicate IsSpace(c: char) {
    c == ' ' || c == '\t' || c == '\n' || c == '\r' || c == '\U{000B}' || c == '\U{000C}'
  }

  function TrimStart(s: string): (r: string)
    ensures |r| <= |s| && r == s[|s| - |r|..]
    ensures r == [] <==> forall i :: 0 <= i < |s| ==> IsSpace(s[i])
    ensures r != [] ==> !IsSpace(r[0])
  {
    if s != [] && IsSpace(s[0]) then TrimStart(s[1..]) else s
  }

  function TrimEnd(s: string): (r: string)
    ensures |r| <= |s| && r == s[..|r|]
    ensures r == [] <==> forall i :: 0 <= i < |s| ==> IsSpace(s[i])
    ensures r != [] ==> !IsSpace(r[|r| - 1])
  {
    if s != [] && IsSpace(s[|s| - 1]) then TrimEnd(s[..|s| - 1]) else s
  }

  /** `s.trim()`: the string without leading and trailing whitespace. */
  function Trim(s: string): (r: string)
    ensures r == [] <==> forall i :: 0 <= i < |s| ==> IsSpace(s[i])
    ensures r != [] ==> !IsSpace(r[0]) && !IsSpace(r[|r| - 1])
  {
    var t := TrimStart(s);
    assert forall i :: 0 <= i < |t| ==> t[i] == s[|s| - |t| + i];
    TrimEnd(t)
  }

  // ---------------------------------------------------------------------------
  // Tables

  const CLICKABLE_SEGMENTS: seq<string> := ["classes", "exercises", "routines", "users"]
  const HIDDEN_SEGMENTS: seq<string> := ["admin", "user"]
  const SPANISH_SEGMENT_LABELS: map<string, string> := map[
    "admin" := "Administracion",
    "user" := "Usuario",
    "users" := "Usuarios",
    "dashboard" := "Panel",
    "classes" := "Clases",
    "exercises" := "Ejercicios",
    "routines" := "Rutinas",
    "goals" := "Objetivos",
    "leaderboard" := "Ranking",
    "challenges" := "Desafios",
    "gamification" := "Gamificacion",
    "badges" := "Insignias",
    "new" := "Nueva",
    "edit" := "Editar",
    "play" := "Entrenar",
    "medibook" := "MediBook",
    "api-key" := "Clave API",
    "sign-in" := "Iniciar sesion",
    "sign-up" := "Registro"
  ]

  /** Every clickable segment has an entry in the label table. */
  lemma ClickableSegmentsAreLabelled()
    ensures forall s :: s in CLICKABLE_SEGMENTS ==>
      s in SPANISH_SEGMENT_LABELS && SPANISH_SEGMENT_LABELS[s] != ""
  {
  }

  // ---------------------------------------------------------------------------
  // Segments

  function StripTrailingSlash(pathname: string): string {
    if |pathname| > 0 && pathname[|pathname| - 1] == '/' then pathname[..|pathname| - 1] else pathname
  }

  /** The non-empty "/"-separated segments of a pathname, in path order,
      after dropping one trailing "/". */
  function PathSegments(pathname: string): (segments: seq<string>)
    ensures forall i :: 0 <= i < |segments| ==> segments[i] != "" && '/' !in segments[i]
  {
    Filter(Split(StripTrailingSlash(pathname), '/'), (x: string) => x != "")
  }

  /** A segment list a pathname can produce. */
  predicate ProperSegments(segments: seq<string>) {
    forall i :: 0 <= i < |segments| ==> segments[i] != "" && '/' !in segments[i]
  }

  /** The segments of "/s1/.../sn", with or without a trailing "/", are exactly
      s1, ..., sn: segment extraction inverts path construction. */
  lemma {:induction false} SegmentsOfPath(segments: seq<string>)
    requires ProperSegments(segments)
    ensures PathSegments("/" + Join(segments, "/")) == segments
    ensures PathSegments("/" + Join(segments, "/") + "/") == segments
  {
    var nonEmpty := (x: string) => x != "";
    var path := "/" + Join(segments, "/");
    if segments == [] {
      assert path == "/" && StripTrailingSlash(path) == "";
      assert Split("", '/') == [""];
      assert StripTrailingSlash(path + "/") == "/";
      assert Split("/", '/') == [""] + Split("", '/');
      assert Filter(["", ""], nonEmpty) == [];
    } else {
      var joined := Join(segments, "/");
      SplitJoin(segments, '/');
      LastOfJoin(segments, "/");
      assert StripTrailingSlash(path) == path;
      assert (path + "/")[..|path|] == path;
      assert StripTrailingSlash(path + "/") == path;
      assert path == ['/'] + joined;
      assert path[1..] == joined;
      assert Split(path, '/') == [""] + segments;
      FilterAll(segments, nonEmpty);
      FilterAppend([""], segments, nonEmpty);
    }
  }

  /** A join of non-empty pieces ends with the last piece's last character. */
  lemma LastOfJoin(parts: seq<string>, sep: string)
    requires |parts| >= 1 && parts[|parts| - 1] != ""
    ensures var j := Join(parts, sep);
      |j| > 0 && j[|j| - 1] == parts[|parts| - 1][|parts[|parts| - 1]| - 1]
  {
    if |parts| > 1 {
      var init := parts[..|parts| - 1];
      assert parts == init + [parts[|parts| - 1]];
      JoinSnoc(init, parts[|parts| - 1], sep);
    }
  }

  /** Stripping the trailing "/" never changes the segments: it only removes
      an empty piece that the filter would drop anyway. */
  lemma TrailingSlashIsIrrelevant(pathname: string)
    ensures PathSegments(pathname) == Filter(Split(pathname, '/'), (x: string) => x != "")
  {
    var nonEmpty := (x: string) => x != "";
    if |pathname| > 0 && pathname[|pathname| - 1] == '/' {
      var p := pathname[..|pathname| - 1];
      assert pathname == p + "/";
      SplitSnocSeparator(p, '/');
      var r := Split(p, '/');
      var init, last := r[..|r| - 1], r[|r| - 1];
      assert r == init + [last];
      assert Split(pathname, '/') == init + [last] + [""];
      FilterAppend(init + [last], [""], nonEmpty);
      assert Filter([""], nonEmpty) == [];
    }
  }

  /** Splitting after one more separator adds one empty piece at the end. */
  lemma {:induction false} SplitSnocSeparator(s: string, c: char)
    ensures Split(s + [c], c) == Split(s, c) + [""]
  {
    if s == [] {
      assert s + [c] == [c];
      assert Split([c], c) == [""] + Split([], c);
    } else {
      assert (s + [c])[1..] == s[1..] + [c];
      SplitSnocSeparator(s[1..], c);
      var rest := Split(s[1..], c);
      if s[0] != c {
        assert (rest + [""])[0] == rest[0];
        assert (rest + [""])[1..] == rest[1..] + [""];
      }
    }
  }

  // ---------------------------------------------------------------------------
  // Labels

  /** `getAdminUserIdFromPath`: the user id segment of an `admin/user/<id>`
      path, or "" for any other path. */
  function GetAdminUserIdFromPath(pathname: string): (id: string)
    ensures var s := PathSegments(pathname);
      id != "" <==> |s| >= 3 && s[0] == "admin" && s[1] == "user"
    ensures id != "" ==> id == PathSegments(pathname)[2]
  {
    var segments := PathSegments(pathname);
    if |segments| >= 3 && segments[0] == "admin" && segments[1] == "user" && segments[2] != ""
    then segments[2] else ""
  }

  /** `isAdminUserIdSegment`: index 2 of an `admin/user/...` segment list. */
  predicate IsAdminUserIdSegment(segments: seq<string>, index: int) {
    |segments| >= 2 && segments[0] == "admin" && segments[1] == "user" && index == 2
  }

  /** The two rules agree: a path carries an admin user id exactly when its
      third segment is the admin user id segment, and the id is that segment. */
  lemma AdminUserIdAgreesWithSegmentRule(pathname: string)
    ensures var s := PathSegments(pathname);
      GetAdminUserIdFromPath(pathname) != "" <==> |s| > 2 && IsAdminUserIdSegment(s, 2)
  {
  }

  /** The fallback label: the "-"-separated words with their first letters
      capitalised, joined with spaces, with the brackets removed. */
  function WordsLabel(segment: string): string {
    var words := Split(segment, '-');
    RemoveBrackets(Join(seq(|words|, i requires 0 <= i < |words| => CapitalizeFirstLetter(words[i])), " "))
  }

  function GetSegmentLabel(segment: string, segments: seq<string>, index: int, adminUserName: string): string {
    if IsAdminUserIdSegment(segments, index) then
      (if adminUserName != "" then adminUserName else "Usuario")
    else if ToLower(segment) in SPANISH_SEGMENT_LABELS && SPANISH_SEGMENT_LABELS[ToLower(segment)] != "" then
      SPANISH_SEGMENT_LABELS[ToLower(segment)]
    else WordsLabel(segment)
  }

  /** The label rules: the admin user id segment shows the user's name or
      "Usuario", a segment found in the table (ignoring case) shows its table
      label, and any other segment shows its words label, which holds no
      bracket. */
  lemma LabelRules(segment: string, segments: seq<string>, index: int, adminUserName: string)
    ensures var text := GetSegmentLabel(segment, segments, index, adminUserName);
      && (IsAdminUserIdSegment(segments, index) ==>
            text == if adminUserName == "" then "Usuario" else adminUserName)
      && (!IsAdminUserIdSegment(segments, index) && ToLower(segment) in SPANISH_SEGMENT_LABELS ==>
            text == SPANISH_SEGMENT_LABELS[ToLower(segment)])
      && (!IsAdminUserIdSegment(segments, index) && ToLower(segment) !in SPANISH_SEGMENT_LABELS ==>
            text == WordsLabel(segment) && '[' !in text && ']' !in text)
  {
    TableLabelsAreNonEmpty();
    WordsLabelHasNoBrackets(segment);
  }

  lemma TableLabelsAreNonEmpty()
    ensures forall k :: k in SPANISH_SEGMENT_LABELS ==> SPANISH_SEGMENT_LABELS[k] != ""
  {
  }

  lemma WordsLabelHasNoBrackets(segment: string)
    ensures '[' !in WordsLabel(segment) && ']' !in WordsLabel(segment)
  {
  }

  /** A single word without brackets is shown with its first letter
      capitalised. */
  lemma {:induction false} SingleWordLabel(segment: string)
    requires '-' !in segment && '[' !in segment && ']' !in segment
    ensures WordsLabel(segment) == CapitalizeFirstLetter(segment)
  {
    NoSeparatorSplit(segment, '-');
    var cap := CapitalizeFirstLetter(segment);
    assert '[' !in cap && ']' !in cap;
    FilterAll(cap, (ch: char) => ch != '[' && ch != ']');
  }

  lemma {:induction false} NoSeparatorSplit(s: string, c: char)
    requires c !in s
    ensures Split(s, c) == [s]
  {
    SplitPrefix(s, "", c);
    assert s + "" == s;
  }

  /** Worked examples of the label rules: a table segment in any case, and
      the admin user id segment without and with a loaded name. */
  lemma ConcreteTableLabels()
    ensures GetSegmentLabel("Classes", ["Classes"], 0, "") == "Clases"
    ensures GetSegmentLabel("u1", ["admin", "user", "u1"], 2, "") == "Usuario"
    ensures GetSegmentLabel("u1", ["admin", "user", "u1"], 2, "Ana Paz") == "Ana Paz"
  {
    assert ToLower("Classes") == "classes";
  }

  /** A segment outside the table is shown capitalised. */
  lemma ConcreteWordsLabel()
    ensures GetSegmentLabel("stats", ["stats"], 0, "") == "Stats"
  {
    StatsText();
    SingleWordLabel("stats");
  }

  lemma StatsText()
    ensures ToLower("stats") == "stats" && "stats" !in SPANISH_SEGMENT_LABELS
    ensures '-' !in "stats" && '[' !in "stats" && ']' !in "stats"
    ensures CapitalizeFirstLetter("stats") == "Stats"
  {
  }

  // ---------------------------------------------------------------------------
  // Breadcrumbs

  datatype Breadcrumb = Breadcrumb(
    name: string,
    url: string,
    isLast: bool,
    isClickable: bool,
    segment: string)

  /** The URL of the breadcrumb of segment `index`: the path up to and
      including that segment. */
  function CrumbUrl(segments: seq<string>, index: nat): string
    requires index < |segments|
  {
    "/" + Join(segments[..index + 1], "/")
  }

  function CrumbAt(segments: seq<string>, index: nat, adminUserName: string): Breadcrumb
    requires index < |segments|
  {
    var segment := segments[index];
    Breadcrumb(
      GetSegmentLabel(segment, segments, index, adminUserName),
      CrumbUrl(segments, index),
      index == |segments| - 1,
      ToLower(segment) in CLICKABLE_SEGMENTS && '[' !in segment,
      segment)
  }

  /** One breadcrumb per segment, in segment order. */
  function BreadcrumbsOf(segments: seq<string>, adminUserName: string): (crumbs: seq<Breadcrumb>)
    ensures |crumbs| == |segments|
    ensures forall i :: 0 <= i < |crumbs| ==> crumbs[i].segment == segments[i]
  {
    seq(|segments|, i requires 0 <= i < |segments| => CrumbAt(segments, i, adminUserName))
  }

  /** `generateBreadcrumbs`: the breadcrumbs of the pathname's segments. */
  function GenerateBreadcrumbs(pathname: string, adminUserName: string): seq<Breadcrumb> {
    BreadcrumbsOf(PathSegments(pathname), adminUserName)
  }

  /** Each URL extends the previous one by "/" and its own segment. */
  lemma UrlChain(segments: seq<string>, index: nat)
    requires index + 1 < |segments|
    ensures CrumbUrl(segments, index + 1) == CrumbUrl(segments, index) + "/" + segments[index + 1]
  {
    assert segments[..index + 2] == segments[..index + 1] + [segments[index + 1]];
    JoinSnoc(segments[..index + 1], segments[index + 1], "/");
  }

  /** The URLs form a chain: the first is "/" and the first segment, each next
      one extends the previous by "/" and its segment, and the last one is the
      whole path rebuilt from the segments. Exactly the final breadcrumb is
      marked last. */
  lemma {:induction false} BreadcrumbUrls(segments: seq<string>, adminUserName: string)
    ensures var crumbs := BreadcrumbsOf(segments, adminUserName);
      && (|crumbs| > 0 ==> crumbs[0].url == "/" + segments[0])
      && (forall i :: 0 <= i < |crumbs| - 1 ==> crumbs[i + 1].url == crumbs[i].url + "/" + segments[i + 1])
      && (|crumbs| > 0 ==> crumbs[|crumbs| - 1].url == "/" + Join(segments, "/"))
      && (forall i :: 0 <= i < |crumbs| ==> (crumbs[i].isLast <==> i == |crumbs| - 1))
  {
    var crumbs := BreadcrumbsOf(segments, adminUserName);
    if |crumbs| > 0 {
      assert segments[..1] == [segments[0]];
      assert segments[..|segments|] == segments;
    }
    forall i | 0 <= i < |crumbs| - 1
      ensures crumbs[i + 1].url == crumbs[i].url + "/" + segments[i + 1]
    {
      UrlChain(segments, i);
    }
  }

  /** For a path built from proper segments, the breadcrumbs are one per
      segment and the last one links to the path itself. */
  lemma PathRoundTrip(segments: seq<string>, adminUserName: string)
    requires ProperSegments(segments) && segments != []
    ensures var crumbs := GenerateBreadcrumbs("/" + Join(segments, "/"), adminUserName);
      |crumbs| == |segments| && crumbs[|crumbs| - 1].url == "/" + Join(segments, "/")
  {
    SegmentsOfPath(segments);
    BreadcrumbUrls(segments, adminUserName);
  }

  /** A breadcrumb may be a link exactly when its lowercased segment is one of
      the clickable ones and it has no "["; a clickable breadcrumb that is not
      the admin user id always shows its table label. */
  lemma ClickableBreadcrumbs(segments: seq<string>, adminUserName: string, i: nat)
    requires i < |segments|
    ensures var c := BreadcrumbsOf(segments, adminUserName)[i];
      && (c.isClickable <==> ToLower(segments[i]) in CLICKABLE_SEGMENTS && '[' !in segments[i])
      && (c.isClickable && !IsAdminUserIdSegment(segments, i) ==>
            c.name == SPANISH_SEGMENT_LABELS[ToLower(segments[i])])
  {
    ClickableSegmentsAreLabelled();
  }

  predicate IsVisible(c: Breadcrumb) {
    ToLower(c.segment) !in HIDDEN_SEGMENTS
  }

  /** The breadcrumbs shown: those whose lowercased segment is not hidden. */
  function VisibleBreadcrumbs(crumbs: seq<Breadcrumb>): seq<Breadcrumb> {
    Filter(crumbs, IsVisible)
  }

  /** The visible breadcrumbs are exactly the breadcrumbs of non-hidden
      segments, in their original order. */
  lemma VisibleAreNonHidden(crumbs: seq<Breadcrumb>, more: seq<Breadcrumb>)
    ensures forall c :: c in VisibleBreadcrumbs(crumbs) <==> c in crumbs && ToLower(c.segment) !in HIDDEN_SEGMENTS
    ensures VisibleBreadcrumbs(crumbs + more) == VisibleBreadcrumbs(crumbs) + VisibleBreadcrumbs(more)
  {
    FilterAppend(crumbs, more, IsVisible);
  }

  /** A visible breadcrumb is rendered as a link unless it is the last one
      shown or it is not clickable. */
  predicate RendersAsLink(visible: seq<Breadcrumb>, index: nat)
    requires index < |visible|
  {
    index != |visible| - 1 && visible[index].isClickable
  }

  /** The last visible breadcrumb is never a link. */
  lemma LastVisibleIsNotALink(visible: seq<Breadcrumb>)
    requires |visible| > 0
    ensures !RendersAsLink(visible, |visible| - 1)
  {
  }

  // ---------------------------------------------------------------------------
  // The admin user's display name

  datatype AdminUser = AdminUser(firstName: Option<string>, lastName: Option<string>, email: string)

  /** The name shown for the admin user id segment: the trimmed full name, or
      else the e-mail, or else the id itself; "" until the user is loaded. */
  function AdminUserName(adminUser: Option<AdminUser>, adminUserId: string): (name: string)
    ensures adminUser.None? ==> name == ""
  {
    match adminUser
    case None => ""
    case Some(u) =>
      var fullName := Trim(u.firstName.GetOr("") + " " + u.lastName.GetOr(""));
      if fullName != "" then fullName
      else if u.email != "" then u.email
      else adminUserId
  }

  predicate Blank(s: string) {
    forall i :: 0 <= i < |s| ==> IsSpace(s[i])
  }

  /** Once the user is loaded for a non-empty id, the name is never empty, so
      the admin user id breadcrumb never falls back to "Usuario". The trimmed
      full name is used exactly when the first or the last name is not blank;
      otherwise the e-mail, and for an empty e-mail the id. */
  lemma LoadedUserHasName(u: AdminUser, adminUserId: string)
    requires adminUserId != ""
    ensures AdminUserName(Some(u), adminUserId) != ""
    ensures var first, last := u.firstName.GetOr(""), u.lastName.GetOr("");
      && (!Blank(first) || !Blank(last) ==> AdminUserName(Some(u), adminUserId) == Trim(first + " " + last))
      && (Blank(first) && Blank(last) ==>
            AdminUserName(Some(u), adminUserId) == if u.email != "" then u.email else adminUserId)
  {
    BlankFullName(u.firstName.GetOr(""), u.lastName.GetOr(""));
  }

  /** The full name is blank exactly when both of its parts are. */
  lemma BlankFullName(first: string, last: string)
    ensures Blank(first + " " + last) <==> Blank(first) && Blank(last)
  {
    var full := first + " " + last;
    assert forall i :: 0 <= i < |first| ==> full[i] == first[i];
    assert forall i :: 0 <= i < |last| ==> full[|first| + 1 + i] == last[i];
    assert full[|first|] == ' ';
  }

  const ADMIN_PAGE_SEGMENTS: seq<string> := ["admin", "user", "u1", "routines"]
  const ADMIN_PAGE_CRUMBS: seq<Breadcrumb> := [
    Breadcrumb("Administracion", "/admin", false, false, "admin"),
    Breadcrumb("Usuario", "/admin/user", false, false, "user"),
    Breadcrumb("Ana Paz", "/admin/user/u1", false, false, "u1"),
    Breadcrumb("Rutinas", "/admin/user/u1/routines", true, true, "routines")]

  /** The URLs of that page's breadcrumbs, one extension at a time. */
  lemma AdminPageUrl0()
    ensures CrumbUrl(ADMIN_PAGE_SEGMENTS, 0) == "/admin"
  {
    assert ADMIN_PAGE_SEGMENTS[..1] == ["admin"];
  }

  lemma AdminPageUrl1()
    ensures CrumbUrl(ADMIN_PAGE_SEGMENTS, 1) == "/admin/user"
  {
    AdminPageUrl0();
    UrlChain(ADMIN_PAGE_SEGMENTS, 0);
    AdminPageUrlTexts();
  }

  lemma AdminPageUrl2()
    ensures CrumbUrl(ADMIN_PAGE_SEGMENTS, 2) == "/admin/user/u1"
  {
    AdminPageUrl1();
    UrlChain(ADMIN_PAGE_SEGMENTS, 1);
    AdminPageUrlTexts();
  }

  lemma AdminPageUrl3()
    ensures CrumbUrl(ADMIN_PAGE_SEGMENTS, 3) == "/admin/user/u1/routines"
  {
    AdminPageUrl2();
    UrlChain(ADMIN_PAGE_SEGMENTS, 2);
    AdminPageUrlTexts();
  }

  lemma AdminPageUrlTexts()
    ensures "/admin" + "/" + "user" == "/admin/user"
    ensures "/admin/user" + "/" + "u1" == "/admin/user/u1"
    ensures "/admin/user/u1" + "/" + "routines" == "/admin/user/u1/routines"
  {
  }

  /** Each breadcrumb of that page, from its URL and its segment's label and
      clickability. */
  lemma AdminPageCrumb0()
    ensures CrumbAt(ADMIN_PAGE_SEGMENTS, 0, "Ana Paz") == ADMIN_PAGE_CRUMBS[0]
  {
    AdminPageUrl0();
    AdminSegment();
  }

  lemma AdminPageCrumb1()
    ensures CrumbAt(ADMIN_PAGE_SEGMENTS, 1, "Ana Paz") == ADMIN_PAGE_CRUMBS[1]
  {
    AdminPageUrl1();
    UserSegment();
  }

  lemma AdminPageCrumb2()
    ensures CrumbAt(ADMIN_PAGE_SEGMENTS, 2, "Ana Paz") == ADMIN_PAGE_CRUMBS[2]
  {
    AdminPageUrl2();
    IdSegment();
  }

  lemma AdminPageCrumb3()
    ensures CrumbAt(ADMIN_PAGE_SEGMENTS, 3, "Ana Paz") == ADMIN_PAGE_CRUMBS[3]
  {
    AdminPageUrl3();
    RoutinesSegment();
  }

  /** The label and clickability of each segment of that page. */
  lemma AdminSegment()
    ensures ToLower("admin") == "admin"
    ensures GetSegmentLabel("admin", ADMIN_PAGE_SEGMENTS, 0, "Ana Paz") == "Administracion"
    ensures "admin" !in CLICKABLE_SEGMENTS
  {
    AdminPageSegmentsLowercase();
  }

  lemma UserSegment()
    ensures ToLower("user") == "user"
    ensures GetSegmentLabel("user", ADMIN_PAGE_SEGMENTS, 1, "Ana Paz") == "Usuario"
    ensures "user" !in CLICKABLE_SEGMENTS
  {
    AdminPageSegmentsLowercase();
  }

  lemma IdSegment()
    ensures ToLower("u1") == "u1"
    ensures GetSegmentLabel("u1", ADMIN_PAGE_SEGMENTS, 2, "Ana Paz") == "Ana Paz"
    ensures "u1" !in CLICKABLE_SEGMENTS
  {
    AdminPageSegmentsLowercase();
  }

  lemma RoutinesSegment()
    ensures ToLower("routines") == "routines"
    ensures GetSegmentLabel("routines", ADMIN_PAGE_SEGMENTS, 3, "Ana Paz") == "Rutinas"
    ensures "routines" in CLICKABLE_SEGMENTS
  {
    AdminPageSegmentsLowercase();
  }

  lemma AdminPageSegmentsLowercase()
    ensures ToLower("admin") == "admin" && ToLower("user") == "user"
    ensures ToLower("u1") == "u1" && ToLower("routines") == "routines"
  {
  }

  /** The breadcrumbs of the segments of an admin user's routines page. */
  lemma ConcreteAdminUserCrumbs()
    ensures BreadcrumbsOf(ADMIN_PAGE_SEGMENTS, "Ana Paz") == ADMIN_PAGE_CRUMBS
  {
    var crumbs := BreadcrumbsOf(ADMIN_PAGE_SEGMENTS, "Ana Paz");
    assert crumbs[0] == ADMIN_PAGE_CRUMBS[0] by { AdminPageCrumb0(); }
    assert crumbs[1] == ADMIN_PAGE_CRUMBS[1] by { AdminPageCrumb1(); }
    assert crumbs[2] == ADMIN_PAGE_CRUMBS[2] by { AdminPageCrumb2(); }
    assert crumbs[3] == ADMIN_PAGE_CRUMBS[3] by { AdminPageCrumb3(); }
    FourCrumbs(crumbs, ADMIN_PAGE_CRUMBS);
  }

  lemma FourCrumbs(a: seq<Breadcrumb>, b: seq<Breadcrumb>)
    requires |a| == 4 && |b| == 4
    requires a[0] == b[0] && a[1] == b[1] && a[2] == b[2] && a[3] == b[3]
    ensures a == b
  {
  }

  /** Only the id and the routines breadcrumbs of that page are shown. */
  lemma ConcreteAdminUserVisible()
    ensures VisibleBreadcrumbs(ADMIN_PAGE_CRUMBS) == ADMIN_PAGE_CRUMBS[2..]
  {
    var crumbs := ADMIN_PAGE_CRUMBS;
    HiddenSegments();
    assert crumbs == crumbs[..2] + crumbs[2..];
    VisibleAreNonHidden(crumbs[..2], crumbs[2..]);
    assert Filter(crumbs[..2], IsVisible) == [] by {
      assert crumbs[..2][1..] == [crumbs[1]];
    }
    FilterAll(crumbs[2..], IsVisible);
  }

  lemma HiddenSegments()
    ensures !IsVisible(ADMIN_PAGE_CRUMBS[0]) && !IsVisible(ADMIN_PAGE_CRUMBS[1])
    ensures IsVisible(ADMIN_PAGE_CRUMBS[2]) && IsVisible(ADMIN_PAGE_CRUMBS[3])
  {
    AdminPageSegmentsLowercase();
  }

  /** The whole pipeline on the segments of an admin user page
      (`/admin/user/u1/routines`, by SegmentsOfPath): the hidden "admin" and
      "user" breadcrumbs are dropped, the id is labelled with the user's name
      and the routines segment is labelled from the table. */
  lemma ConcreteAdminUserPage()
    ensures var crumbs := BreadcrumbsOf(ADMIN_PAGE_SEGMENTS, "Ana Paz");
      && |crumbs| == 4
      && VisibleBreadcrumbs(crumbs) == [
           Breadcrumb("Ana Paz", "/admin/user/u1", false, false, "u1"),
           Breadcrumb("Rutinas", "/admin/user/u1/routines", true, true, "routines")]
  {
    ConcreteAdminUserCrumbs();
    ConcreteAdminUserVisible();
  }
}
