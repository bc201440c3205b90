/**
 * The user routes: creating a user, the partial update of a user, the
 * education list of a user, and the record of watched videos. Each
 * handler reads and writes the tables through the database handle; the
 * statement a caller names in `fault` is the one the database rejects.
 */
module Users {
  import opened Wrappers
  import opened Text
  import opened JsValue
  import opened Http
  import opened Store

  /* ---------------------------------------------------------------- tags */

  /** The `tags` body field: an array (of any JSON values), a string, or anything else. */
  datatype TagsInput = TagArray(items: seq<Field>) | TagString(text: string) | TagOther

  /** The text form of every item. */
  function TextEach(items: seq<Field>): (r: seq<string>)
    ensures |r| == |items| && forall i :: 0 <= i < |r| ==> r[i] == ToText(items[i])
  {
    if items == [] then [] else [ToText(items[0])] + TextEach(items[1..])
  }

  /** Trimmed and non-empty: what `normalizeTags` keeps. */
  predicate CleanTag(x: string) {
    x != [] && Trim(x) == x
  }

  /** Every item trimmed, the empty ones dropped. */
  function TrimmedItems(ps: seq<string>): (r: seq<string>)
    ensures forall i :: 0 <= i < |r| ==> CleanTag(r[i])
  {
    var ts := TrimEach(ps);
    assert forall j :: 0 <= j < |ts| ==> Trim(ts[j]) == ts[j] by {
      forall j | 0 <= j < |ts| ensures Trim(ts[j]) == ts[j] {
        TrimIdempotent(ps[j]);
      }
    }
    DropEmpty(ts)
  }

  /** `normalizeTags`: an array item by item, a string as a comma list, anything else as no tags. */
  function NormalizeTags(tags: TagsInput): (r: seq<string>)
    ensures forall i :: 0 <= i < |r| ==> CleanTag(r[i])
  {
    match tags
    case TagArray(items) => TrimmedItems(TextEach(items))
    case TagString(text) => CommaList(text)
    case TagOther => []
  }

  /** The tags as an array of JSON strings. */
  function AsFields(xs: seq<string>): (r: seq<Field>)
    ensures |r| == |xs| && forall i :: 0 <= i < |r| ==> r[i] == Str(xs[i])
  {
    if xs == [] then [] else [Str(xs[0])] + AsFields(xs[1..])
  }

  lemma TrimmedItemsOfClean(xs: seq<string>)
    requires forall i :: 0 <= i < |xs| ==> CleanTag(xs[i])
    ensures TrimmedItems(xs) == xs
  {
    TrimEachOfTrimmed(xs);
    DropEmptyOfNonEmpty(xs);
  }

  /** Reading stored tags back as JSON strings gives the same texts. */
  lemma TextEachAsFields(xs: seq<string>)
    ensures TextEach(AsFields(xs)) == xs
  {
    assert forall i :: 0 <= i < |xs| ==> TextEach(AsFields(xs))[i] == xs[i];
  }

  /** Normalising the stored tags again changes nothing. */
  lemma NormalizeTagsIdempotent(tags: TagsInput)
    ensures NormalizeTags(TagArray(AsFields(NormalizeTags(tags)))) == NormalizeTags(tags)
  {
    var r := NormalizeTags(tags);
    TextEachAsFields(r);
    TrimmedItemsOfClean(r);
  }

  /** Clean, comma-free tags joined into one comma string read back as the same list. */
  lemma NormalizeTagsString(items: seq<string>)
    requires forall i :: 0 <= i < |items| ==> CleanTag(items[i]) && ',' !in items[i]
    ensures NormalizeTags(TagString(Join(items, ","))) == items
  {
    CommaListJoin(items);
  }

  /** Clean tags sent as an array read back as the same list. */
  lemma NormalizeTagsArray(items: seq<string>)
    requires forall i :: 0 <= i < |items| ==> CleanTag(items[i])
    ensures NormalizeTags(TagArray(AsFields(items))) == items
  {
    TextEachAsFields(items);
    TrimmedItemsOfClean(items);
  }

  lemma TextEachAppend(a: seq<Field>, b: seq<Field>)
    ensures TextEach(a + b) == TextEach(a) + TextEach(b)
  {
  }

  /** An array is normalised item by item, in order: an item gives its trimmed text unless that is empty. */
  lemma NormalizeTagsAppend(a: seq<Field>, b: seq<Field>)
    ensures NormalizeTags(TagArray(a + b)) == NormalizeTags(TagArray(a)) + NormalizeTags(TagArray(b))
  {
    TextEachAppend(a, b);
    TrimEachAppend(TextEach(a), TextEach(b));
    DropEmptyAppend(TrimEach(TextEach(a)), TrimEach(TextEach(b)));
  }

  lemma NormalizeTagsOne(x: Field)
    ensures NormalizeTags(TagArray([x])) == if Trim(ToText(x)) == [] then [] else [Trim(ToText(x))]
  {
    assert TrimEach(TextEach([x])) == [Trim(ToText(x))];
  }

  /* ----------------------------------------------------------- authority */

  /** `normAuth`: "admin" for any spelling of admin, "user" for everything else. */
  function NormAuth(v: Field): (r: string)
    ensures r == "admin" || r == "user"
  {
    if Lower(TextOrEmpty(v)) == "admin" then "admin" else "user"
  }

  /** Case-insensitive "admin" (ASCII letters only) is the only way to get admin rights. */
  lemma NormAuthAdmin(v: Field)
    ensures NormAuth(v) == "admin" <==>
      v.Str? && |v.text| == 5 &&
      forall i :: 0 <= i < 5 ==> v.text[i] == "admin"[i] || v.text[i] as int == "admin"[i] as int - 32
  {
    LowerToAsciiWord(TextOrEmpty(v), "admin");
  }

  /** Normalising a normalised authority keeps it. */
  lemma NormAuthIdempotent(v: Field)
    ensures NormAuth(Str(NormAuth(v))) == NormAuth(v)
  {
    LowerToAsciiWord("admin", "admin");
    LowerToAsciiWord("user", "admin");
  }

  /* ------------------------------------------------------------- profile */

  /** A user as the handlers answer it (`camelize`). */
  datatype Profile = Profile(
    id: int, fullName: string, role: string, workArea: Option<string>, authority: Option<string>,
    username: string, email: string, password: Option<string>, tags: seq<string>,
    school: string, department: string)

  /** `camelize`: a NULL school or department reads as "". */
  function Camelize(id: int, u: User): Profile {
    Profile(id, u.fullName, u.role, u.workArea, u.authority, u.username, u.email, u.password,
            u.tags, u.school.GetOr(""), u.department.GetOr(""))
  }

  /* ------------------------------------------------------------- create */

  /** The JSON body of the create and update routes. */
  datatype UserBody = UserBody(
    fullName: Field, role: Field, workArea: Field, authority: Field, username: Field,
    email: Field, password: Field, tags: TagsInput, school: Field, department: Field)

  /** Every required field of a new user is truthy. */
  predicate Complete(b: UserBody) {
    && Truthy(b.fullName) && Truthy(b.role) && Truthy(b.workArea) && Truthy(b.authority)
    && Truthy(b.username) && Truthy(b.email) && Truthy(b.password)
  }

  /** The row the create route inserts; `watched_videos` takes its default, the empty array. */
  function NewUser(b: UserBody): (u: User)
    requires Complete(b)
  {
    User(b.fullName.text, b.role.text, Some(b.workArea.text), Some(NormAuth(b.authority)),
         b.username.text, b.email.text, Some(b.password.text), NormalizeTags(b.tags),
         Nullable(b.school), Nullable(b.department), [])
  }

  /** Some user has this username or this email. */
  predicate Taken(users: map<int, User>, username: string, email: string) {
    exists id :: id in users && (users[id].username == username || users[id].email == email)
  }

  /**
   * POST /users: 400 unless every required field is truthy, 409 when the
   * username or the email is taken, 201 with the new user otherwise; a
   * rejected query answers 500 and changes nothing.
   */
  method CreateUser(db: Database, b: UserBody, fault: Option<Stmt>) returns (reply: Reply<Profile>)
    requires db.Valid()
    modifies db`t, db`serial
    ensures db.Valid()
    ensures reply.Failed? ==> db.t == old(db.t) && db.serial == old(db.serial)
    ensures !Complete(b) ==> reply == Failed(400, MissingUserFields)
    ensures Complete(b) && fault == Some(FindDuplicateUser) ==> reply == Failed(500, Internal)
    ensures Complete(b) && fault != Some(FindDuplicateUser) ==>
      (reply == Failed(409, UserTaken) <==> Taken(old(db.t.users), b.username.text, b.email.text))
    ensures Complete(b) && fault != Some(FindDuplicateUser) && !Taken(old(db.t.users), b.username.text, b.email.text) ==>
      (reply.Done? <==> fault != Some(InsertUserRow))
    ensures Complete(b) && fault == Some(InsertUserRow) && !Taken(old(db.t.users), b.username.text, b.email.text) ==>
      reply == Failed(500, Internal)
    ensures reply.Done? ==>
      && Complete(b)
      && var id := old(db.serial.user);
      && reply == Done(201, Camelize(id, NewUser(b)))
      && db.t == old(db.t).(users := old(db.t.users)[id := NewUser(b)])
      && db.serial == old(db.serial).(user := id + 1)
  {
    if !Complete(b) {
      return Failed(400, MissingUserFields);
    }
    if fault == Some(FindDuplicateUser) {
      return Failed(500, Internal);
    }
    if Taken(db.t.users, b.username.text, b.email.text) {
      return Failed(409, UserTaken);
    }
    if fault == Some(InsertUserRow) {
      return Failed(500, Internal);
    }
    var u := NewUser(b);
    var id := db.InsertUser(u);
    reply := Done(201, Camelize(id, u));
  }

  /** A created user is stored with a normalised authority and normalised tags, and has watched nothing. */
  lemma NewUserNormalised(b: UserBody)
    requires Complete(b)
    ensures NewUser(b).authority == Some("admin") <==> Lower(b.authority.text) == "admin"
    ensures NewUser(b).authority == Some("admin") || NewUser(b).authority == Some("user")
    ensures forall i :: 0 <= i < |NewUser(b).tags| ==> CleanTag(NewUser(b).tags[i])
    ensures NewUser(b).watched == []
  {
  }

  /* ------------------------------------------------------------- update */

  /** The columns the update route may set, in the order it tests them. */
  datatype Column =
    | FullNameCol | RoleCol | WorkAreaCol | AuthorityCol | UsernameCol | EmailCol
    | TagsCol | SchoolCol | DepartmentCol | PasswordCol

  function ColumnName(c: Column): string {
    match c
    case FullNameCol => "full_name"
    case RoleCol => "role"
    case WorkAreaCol => "work_area"
    case AuthorityCol => "authority"
    case UsernameCol => "username"
    case EmailCol => "email"
    case TagsCol => "tags"
    case SchoolCol => "school"
    case DepartmentCol => "department"
    case PasswordCol => "password_plain"
  }

  /** Where the handler tests the column. */
  function Rank(c: Column): nat {
    match c
    case FullNameCol => 0
    case RoleCol => 1
    case WorkAreaCol => 2
    case AuthorityCol => 3
    case UsernameCol => 4
    case EmailCol => 5
    case TagsCol => 6
    case SchoolCol => 7
    case DepartmentCol => 8
    case PasswordCol => 9
  }

  /**
   * A bound query parameter: a body field as given, the tags as given
   * (bound as their normalised list, `NormalizeTags`), or the user id.
   */
  datatype Param = FieldParam(field: Field) | TagsParam(tags: TagsInput) | IdParam(id: int)

  /** One `column = $k` of the SET list, with the value bound to `$k`. */
  datatype Assign = Assign(column: Column, value: Param)

  /** A test's outcome: the assignment when the test passes. */
  function When(test: bool, a: Assign): (r: Option<Assign>)
    ensures r.Some? <==> test
    ensures r.Some? ==> r.value == a
  {
    if test then Some(a) else None
  }

  /**
   * The handler's test for one column: a field sets its column unless it
   * is undefined, the authority is normalised, the tags are set from an
   * array or a string only, and the password only when truthy.
   */
  function Test(b: UserBody, c: Column): (r: Option<Assign>)
    ensures r.Some? ==> r.value.column == c
  {
    match c
    case FullNameCol => When(b.fullName != Undefined, Assign(c, FieldParam(b.fullName)))
    case RoleCol => When(b.role != Undefined, Assign(c, FieldParam(b.role)))
    case WorkAreaCol => When(b.workArea != Undefined, Assign(c, FieldParam(b.workArea)))
    case AuthorityCol => When(b.authority != Undefined, Assign(c, FieldParam(Str(NormAuth(b.authority)))))
    case UsernameCol => When(b.username != Undefined, Assign(c, FieldParam(b.username)))
    case EmailCol => When(b.email != Undefined, Assign(c, FieldParam(b.email)))
    case TagsCol => When(b.tags.TagArray? || b.tags.TagString?, Assign(c, TagsParam(b.tags)))
    case SchoolCol => When(b.school != Undefined, Assign(c, FieldParam(b.school)))
    case DepartmentCol => When(b.department != Undefined, Assign(c, FieldParam(b.department)))
    case PasswordCol => When(Truthy(b.password), Assign(c, FieldParam(b.password)))
  }

  /** A test's assignment, as a list of zero or one. */
  function Opt(o: Option<Assign>): seq<Assign> {
    if o.Some? then [o.value] else []
  }

  /** The assignments of the tests that passed, in order. */
  function Somes(os: seq<Option<Assign>>): seq<Assign> {
    if os == [] then [] else Somes(os[..|os| - 1]) + Opt(os[|os| - 1])
  }

  /** An assignment is kept exactly when some test gave it. */
  lemma {:induction false} SomesHas(os: seq<Option<Assign>>, a: Assign)
    ensures a in Somes(os) <==> Some(a) in os
  {
    if os != [] {
      var init := os[..|os| - 1];
      SomesHas(init, a);
      assert os == init + [os[|os| - 1]];
    }
  }

  /** Tests whose assignments have increasing ranks keep them in that order. */
  lemma {:induction false} SomesRanked(os: seq<Option<Assign>>)
    requires forall j, k :: 0 <= j < k < |os| && os[j].Some? && os[k].Some? ==>
      Rank(os[j].value.column) < Rank(os[k].value.column)
    ensures forall j, k :: 0 <= j < k < |Somes(os)| ==> Rank(Somes(os)[j].column) < Rank(Somes(os)[k].column)
  {
    if os != [] {
      var init := os[..|os| - 1];
      var last := os[|os| - 1];
      SomesRanked(init);
      var r := Somes(os);
      assert r == Somes(init) + Opt(last);
      forall j, k | 0 <= j < k < |r| ensures Rank(r[j].column) < Rank(r[k].column) {
        if k >= |Somes(init)| {
          SomesHas(init, r[j]);
          var m :| 0 <= m < |init| && init[m] == Some(r[j]);
          assert os[m] == init[m];
        }
      }
    }
  }

  /** The columns in the order the handler tests them. */
  const Columns: seq<Column> :=
    [FullNameCol, RoleCol, WorkAreaCol, AuthorityCol, UsernameCol, EmailCol, TagsCol, SchoolCol, DepartmentCol, PasswordCol]

  /** The handler's ten tests, in order. */
  function Tests(b: UserBody): (r: seq<Option<Assign>>)
    ensures |r| == |Columns|
  {
    seq(|Columns|, k requires 0 <= k < |Columns| => Test(b, Columns[k]))
  }

  /** The k-th test is the test of the k-th column. */
  lemma TestsAt(b: UserBody, k: nat)
    requires k < |Columns|
    ensures |Tests(b)| == |Columns| && Tests(b)[k] == Test(b, Columns[k])
  {
  }

  /** A sequence of ten, element by element. */
  lemma Ten<T>(s: seq<T>, x0: T, x1: T, x2: T, x3: T, x4: T, x5: T, x6: T, x7: T, x8: T, x9: T)
    requires |s| == 10 && s[0] == x0 && s[1] == x1 && s[2] == x2 && s[3] == x3 && s[4] == x4
    requires s[5] == x5 && s[6] == x6 && s[7] == x7 && s[8] == x8 && s[9] == x9
    ensures s == [] + [x0] + [x1] + [x2] + [x3] + [x4] + [x5] + [x6] + [x7] + [x8] + [x9]
  {
  }

  /** The ten tests as a list of ten. */
  lemma TestsListed(b: UserBody)
    ensures Tests(b) == [] + [Test(b, FullNameCol)] + [Test(b, RoleCol)] + [Test(b, WorkAreaCol)] + [Test(b, AuthorityCol)]
      + [Test(b, UsernameCol)] + [Test(b, EmailCol)] + [Test(b, TagsCol)] + [Test(b, SchoolCol)]
      + [Test(b, DepartmentCol)] + [Test(b, PasswordCol)]
  {
    Ten(Tests(b), Test(b, FullNameCol), Test(b, RoleCol), Test(b, WorkAreaCol), Test(b, AuthorityCol), Test(b, UsernameCol),
        Test(b, EmailCol), Test(b, TagsCol), Test(b, SchoolCol), Test(b, DepartmentCol), Test(b, PasswordCol));
  }

  /** The ten tests, spelled out as the handler makes them. */
  lemma TestsSpelled(b: UserBody)
    ensures Tests(b) == []
      + [When(b.fullName != Undefined, Assign(FullNameCol, FieldParam(b.fullName)))]
      + [When(b.role != Undefined, Assign(RoleCol, FieldParam(b.role)))]
      + [When(b.workArea != Undefined, Assign(WorkAreaCol, FieldParam(b.workArea)))]
      + [When(b.authority != Undefined, Assign(AuthorityCol, FieldParam(Str(NormAuth(b.authority)))))]
      + [When(b.username != Undefined, Assign(UsernameCol, FieldParam(b.username)))]
      + [When(b.email != Undefined, Assign(EmailCol, FieldParam(b.email)))]
      + [When(b.tags.TagArray? || b.tags.TagString?, Assign(TagsCol, TagsParam(b.tags)))]
      + [When(b.school != Undefined, Assign(SchoolCol, FieldParam(b.school)))]
      + [When(b.department != Undefined, Assign(DepartmentCol, FieldParam(b.department)))]
      + [When(Truthy(b.password), Assign(PasswordCol, FieldParam(b.password)))]
  {
    TestsListed(b);
  }

  /** The SET list of the update route. */
  function Assignments(b: UserBody): seq<Assign> {
    Somes(Tests(b))
  }

  lemma ColumnsRanked(k: nat)
    requires k < |Columns|
    ensures Rank(Columns[k]) == k
  {
  }

  /** The SET list names each column at most once, in the order the handler tests them. */
  lemma AssignmentsOrdered(b: UserBody)
    ensures forall j, k :: 0 <= j < k < |Assignments(b)| ==> Rank(Assignments(b)[j].column) < Rank(Assignments(b)[k].column)
  {
    var os := Tests(b);
    forall j, k | 0 <= j < k < |os| && os[j].Some? && os[k].Some?
      ensures Rank(os[j].value.column) < Rank(os[k].value.column)
    {
      TestsAt(b, j);
      TestsAt(b, k);
      ColumnsRanked(j);
      ColumnsRanked(k);
    }
    SomesRanked(os);
  }

  /** A column is in the SET list exactly when its test passes, and with the test's value. */
  lemma ColumnAssigned(b: UserBody, c: Column)
    ensures Test(b, c).Some? ==> Test(b, c).value in Assignments(b)
    ensures forall a :: a in Assignments(b) && a.column == c ==> Test(b, c) == Some(a)
  {
    var os := Tests(b);
    var k := Rank(c);
    assert Columns[k] == c;
    TestsAt(b, k);
    if Test(b, c).Some? {
      assert os[k] == Test(b, c);
      SomesHas(os, Test(b, c).value);
    }
    forall a | a in Assignments(b) && a.column == c ensures Test(b, c) == Some(a) {
      SomesHas(os, a);
      var m :| 0 <= m < |os| && os[m] == Some(a);
      TestsAt(b, m);
    }
  }

  /** The password is set exactly when it is truthy, and then to the given text. */
  lemma PasswordAssigned(b: UserBody)
    ensures Assign(PasswordCol, FieldParam(b.password)) in Assignments(b) <==> Truthy(b.password)
    ensures forall a :: a in Assignments(b) && a.column == PasswordCol ==> a == Assign(PasswordCol, FieldParam(b.password))
  {
    ColumnAssigned(b, PasswordCol);
  }

  /** The tags are set exactly when they come as an array or a string. */
  lemma TagsAssigned(b: UserBody)
    ensures Assign(TagsCol, TagsParam(b.tags)) in Assignments(b) <==> b.tags.TagArray? || b.tags.TagString?
    ensures forall a :: a in Assignments(b) && a.column == TagsCol ==> a.value == TagsParam(b.tags)
  {
    ColumnAssigned(b, TagsCol);
  }

  /** A defined authority is set, and always to "admin" or "user". */
  lemma AuthorityAssigned(b: UserBody)
    ensures Assign(AuthorityCol, FieldParam(Str(NormAuth(b.authority)))) in Assignments(b) <==> b.authority != Undefined
    ensures forall a :: a in Assignments(b) && a.column == AuthorityCol ==> a.value == FieldParam(Str(NormAuth(b.authority)))
  {
    ColumnAssigned(b, AuthorityCol);
  }

  /** Nothing to set: every field undefined, no tags array or string, no truthy password. */
  predicate NothingGiven(b: UserBody) {
    && b.fullName == Undefined && b.role == Undefined && b.workArea == Undefined && b.authority == Undefined
    && b.username == Undefined && b.email == Undefined && b.tags.TagOther? && b.school == Undefined
    && b.department == Undefined && !Truthy(b.password)
  }

  /** No test passes when the SET list is empty. */
  lemma NoneAssigned(b: UserBody)
    requires Assignments(b) == []
    ensures forall c :: Test(b, c).None?
  {
    forall c ensures Test(b, c).None? {
      ColumnAssigned(b, c);
    }
  }

  /** Nothing is given exactly when every test fails. */
  lemma NothingGivenTests(b: UserBody)
    ensures NothingGiven(b) <==> forall c :: Test(b, c).None?
  {
    assert Test(b, FullNameCol).None? <==> b.fullName == Undefined;
    assert Test(b, RoleCol).None? <==> b.role == Undefined;
    assert Test(b, WorkAreaCol).None? <==> b.workArea == Undefined;
    assert Test(b, AuthorityCol).None? <==> b.authority == Undefined;
    assert Test(b, UsernameCol).None? <==> b.username == Undefined;
    assert Test(b, EmailCol).None? <==> b.email == Undefined;
    assert Test(b, TagsCol).None? <==> b.tags.TagOther?;
    assert Test(b, SchoolCol).None? <==> b.school == Undefined;
    assert Test(b, DepartmentCol).None? <==> b.department == Undefined;
    assert Test(b, PasswordCol).None? <==> !Truthy(b.password);
  }

  /** The SET list is empty exactly when nothing is given. */
  lemma AssignmentsEmpty(b: UserBody)
    ensures Assignments(b) == [] <==> NothingGiven(b)
  {
    NothingGivenTests(b);
    if Assignments(b) == [] {
      NoneAssigned(b);
    } else {
      ColumnAssigned(b, Assignments(b)[0].column);
    }
  }

  /** `column = $slot`. */
  function Placeholder(c: Column, slot: nat): string {
    ColumnName(c) + " = $" + NatToDecimal(slot)
  }

  /** The SET list for `xs`: the k-th assignment is rendered with placeholder k+1. */
  function Render(xs: seq<Assign>): (r: seq<string>)
    ensures |r| == |xs|
  {
    seq(|xs|, k requires 0 <= k < |xs| => Placeholder(xs[k].column, k + 1))
  }

  /** The bound values for `xs`, in order. */
  function ValuesOf(xs: seq<Assign>): (r: seq<Param>)
    ensures |r| == |xs|
  {
    seq(|xs|, k requires 0 <= k < |xs| => xs[k].value)
  }

  lemma RenderStep(xs: seq<Assign>, a: Assign)
    ensures Render(xs + [a]) == Render(xs) + [Placeholder(a.column, |xs| + 1)]
    ensures ValuesOf(xs + [a]) == ValuesOf(xs) + [a.value]
  {
    assert Render(xs + [a]) == Render(xs) + [Placeholder(a.column, |xs| + 1)];
    assert ValuesOf(xs + [a]) == ValuesOf(xs) + [a.value];
  }

  /** `fields` and `values` hold the SET list of the tests `tried` so far. */
  predicate Rendered(fields: seq<string>, values: seq<Param>, tried: seq<Option<Assign>>)
    decreases |tried|
  {
    if tried == [] then fields == [] && values == []
    else
      var last := tried[|tried| - 1];
      if last.None? then Rendered(fields, values, tried[..|tried| - 1])
      else
        && fields != [] && values != []
        && fields[|fields| - 1] == Placeholder(last.value.column, |fields|)
        && values[|values| - 1] == last.value.value
        && Rendered(fields[..|fields| - 1], values[..|values| - 1], tried[..|tried| - 1])
  }

  lemma SplitLast<T>(s: seq<T>)
    requires s != []
    ensures s == s[..|s| - 1] + [s[|s| - 1]]
  {
  }

  /** What `Rendered` promises: the SET list and the values of the kept assignments. */
  lemma {:induction false} RenderedIsRender(fields: seq<string>, values: seq<Param>, tried: seq<Option<Assign>>)
    requires Rendered(fields, values, tried)
    ensures fields == Render(Somes(tried)) && values == ValuesOf(Somes(tried))
    decreases |tried|
  {
    if tried != [] {
      var init := tried[..|tried| - 1];
      var last := tried[|tried| - 1];
      assert Somes(tried) == Somes(init) + Opt(last);
      if last.None? {
        RenderedIsRender(fields, values, init);
      } else {
        var f0, v0 := fields[..|fields| - 1], values[..|values| - 1];
        RenderedIsRender(f0, v0, init);
        RenderStep(Somes(init), last.value);
        SplitLast(fields);
        SplitLast(values);
      }
    }
  }

  /** One of the handler's tests: when it passes, the SET item with the next placeholder number and its value are appended. */
  method PushIf(fields: seq<string>, values: seq<Param>, i: nat, ghost tried: seq<Option<Assign>>, test: bool, a: Assign)
    returns (fields': seq<string>, values': seq<Param>, i': nat)
    requires Rendered(fields, values, tried) && i == |fields| + 1
    ensures Rendered(fields', values', tried + [When(test, a)]) && i' == |fields'| + 1
  {
    ghost var next := tried + [When(test, a)];
    assert next[..|next| - 1] == tried;
    fields', values', i' := fields, values, i;
    if test {
      fields' := fields + [ColumnName(a.column) + " = $" + NatToDecimal(i)];
      values' := values + [a.value];
      i' := i + 1;
      assert fields'[..|fields'| - 1] == fields;
      assert values'[..|values'| - 1] == values;
    }
  }

  /**
   * The SET list, the bound values and the WHERE clause of the update:
   * the assignments rendered with placeholders $1..$n in order, their
   * values bound in the same order, and the id bound last as $n+1.
   */
  method BuildUpdate(b: UserBody, id: int) returns (fields: seq<string>, values: seq<Param>, where: string)
    ensures fields == Render(Assignments(b))
    ensures values == ValuesOf(Assignments(b)) + [IdParam(id)]
    ensures where == "id = $" + NatToDecimal(|fields| + 1)
  {
    ghost var tried: seq<Option<Assign>> := [];
    fields, values := [], [];
    var i: nat := 1;
    fields, values, i := PushIf(fields, values, i, tried, b.fullName != Undefined, Assign(FullNameCol, FieldParam(b.fullName)));
    tried := tried + [When(b.fullName != Undefined, Assign(FullNameCol, FieldParam(b.fullName)))];
    fields, values, i := PushIf(fields, values, i, tried, b.role != Undefined, Assign(RoleCol, FieldParam(b.role)));
    tried := tried + [When(b.role != Undefined, Assign(RoleCol, FieldParam(b.role)))];
    fields, values, i := PushIf(fields, values, i, tried, b.workArea != Undefined, Assign(WorkAreaCol, FieldParam(b.workArea)));
    tried := tried + [When(b.workArea != Undefined, Assign(WorkAreaCol, FieldParam(b.workArea)))];
    fields, values, i := PushIf(fields, values, i, tried, b.authority != Undefined, Assign(AuthorityCol, FieldParam(Str(NormAuth(b.authority)))));
    tried := tried + [When(b.authority != Undefined, Assign(AuthorityCol, FieldParam(Str(NormAuth(b.authority)))))];
    fields, values, i := PushIf(fields, values, i, tried, b.username != Undefined, Assign(UsernameCol, FieldParam(b.username)));
    tried := tried + [When(b.username != Undefined, Assign(UsernameCol, FieldParam(b.username)))];
    fields, values, i := PushIf(fields, values, i, tried, b.email != Undefined, Assign(EmailCol, FieldParam(b.email)));
    tried := tried + [When(b.email != Undefined, Assign(EmailCol, FieldParam(b.email)))];
    fields, values, i := PushIf(fields, values, i, tried, b.tags.TagArray? || b.tags.TagString?, Assign(TagsCol, TagsParam(b.tags)));
    tried := tried + [When(b.tags.TagArray? || b.tags.TagString?, Assign(TagsCol, TagsParam(b.tags)))];
    fields, values, i := PushIf(fields, values, i, tried, b.school != Undefined, Assign(SchoolCol, FieldParam(b.school)));
    tried := tried + [When(b.school != Undefined, Assign(SchoolCol, FieldParam(b.school)))];
    fields, values, i := PushIf(fields, values, i, tried, b.department != Undefined, Assign(DepartmentCol, FieldParam(b.department)));
    tried := tried + [When(b.department != Undefined, Assign(DepartmentCol, FieldParam(b.department)))];
    fields, values, i := PushIf(fields, values, i, tried, Truthy(b.password), Assign(PasswordCol, FieldParam(b.password)));
    tried := tried + [When(Truthy(b.password), Assign(PasswordCol, FieldParam(b.password)))];
    TestsSpelled(b);
    RenderedIsRender(fields, values, tried);
    values := values + [IdParam(id)];
    where := "id = $" + NatToDecimal(i);
  }

  /* ------------------------------------------------ the UPDATE statement */

  /**
   * The database applying one SET item to a row: a NULL into one of the
   * NOT NULL columns (full_name, role, username, email) or a value of the
   * wrong kind is rejected, which is None.
   */
  function SetItem(u: User, a: Assign): Option<User> {
    match a.value
    case FieldParam(f) => (
      match a.column
      case FullNameCol => if f.Str? then Some(u.(fullName := f.text)) else None
      case RoleCol => if f.Str? then Some(u.(role := f.text)) else None
      case UsernameCol => if f.Str? then Some(u.(username := f.text)) else None
      case EmailCol => if f.Str? then Some(u.(email := f.text)) else None
      case WorkAreaCol => Some(u.(workArea := Nullable(f)))
      case AuthorityCol => Some(u.(authority := Nullable(f)))
      case SchoolCol => Some(u.(school := Nullable(f)))
      case DepartmentCol => Some(u.(department := Nullable(f)))
      case PasswordCol => Some(u.(password := Nullable(f)))
      case TagsCol => None)
    case TagsParam(t) => if a.column == TagsCol then Some(u.(tags := NormalizeTags(t))) else None
    case IdParam(_) => None
  }

  /** The whole SET list applied left to right; rejected as a whole when one item is. */
  function ApplySet(u: User, xs: seq<Assign>): Option<User>
    decreases xs
  {
    if xs == [] then Some(u)
    else match SetItem(u, xs[0])
      case None => None
      case Some(v) => ApplySet(v, xs[1..])
  }

  predicate NotNullColumn(c: Column) {
    c == FullNameCol || c == RoleCol || c == UsernameCol || c == EmailCol
  }

  /** The SET items the database accepts, whatever the row. */
  predicate Accepts(a: Assign) {
    match a.value
    case FieldParam(f) => a.column != TagsCol && (NotNullColumn(a.column) ==> f.Str?)
    case TagsParam(_) => a.column == TagsCol
    case IdParam(_) => false
  }

  /** Row `v` holds what the SET item writes. */
  predicate Holds(v: User, a: Assign) {
    match a.value
    case FieldParam(f) => (
      match a.column
      case FullNameCol => f == Str(v.fullName)
      case RoleCol => f == Str(v.role)
      case UsernameCol => f == Str(v.username)
      case EmailCol => f == Str(v.email)
      case WorkAreaCol => v.workArea == Nullable(f)
      case AuthorityCol => v.authority == Nullable(f)
      case SchoolCol => v.school == Nullable(f)
      case DepartmentCol => v.department == Nullable(f)
      case PasswordCol => v.password == Nullable(f)
      case TagsCol => false)
    case TagsParam(t) => a.column == TagsCol && v.tags == NormalizeTags(t)
    case IdParam(_) => false
  }

  /** Rows `u` and `v` agree on column `c`. */
  predicate SameAt(u: User, v: User, c: Column) {
    match c
    case FullNameCol => u.fullName == v.fullName
    case RoleCol => u.role == v.role
    case WorkAreaCol => u.workArea == v.workArea
    case AuthorityCol => u.authority == v.authority
    case UsernameCol => u.username == v.username
    case EmailCol => u.email == v.email
    case TagsCol => u.tags == v.tags
    case SchoolCol => u.school == v.school
    case DepartmentCol => u.department == v.department
    case PasswordCol => u.password == v.password
  }

  /** The database accepts a SET item whatever the row, and never writes watched_videos. */
  lemma SetItemAccepts(u: User, a: Assign)
    ensures SetItem(u, a).Some? <==> Accepts(a)
    ensures SetItem(u, a).Some? ==> SetItem(u, a).value.watched == u.watched
  {
  }

  /** An accepted SET item writes its own column and no other. */
  lemma SetItemEffect(u: User, a: Assign)
    requires SetItem(u, a).Some?
    ensures Holds(SetItem(u, a).value, a)
    ensures forall c :: c != a.column ==> SameAt(u, SetItem(u, a).value, c)
  {
  }

  /** Every item of the list is accepted. */
  predicate AllAccepted(xs: seq<Assign>) {
    forall k :: 0 <= k < |xs| ==> Accepts(xs[k])
  }

  lemma AllAcceptedCons(xs: seq<Assign>)
    requires xs != []
    ensures AllAccepted(xs) <==> Accepts(xs[0]) && AllAccepted(xs[1..])
  {
    assert forall k :: 1 <= k < |xs| ==> xs[k] == xs[1..][k - 1];
  }

  /** The SET list is accepted exactly when each of its items is; it never writes the watched videos. */
  lemma {:induction false} ApplySetAccepts(u: User, xs: seq<Assign>)
    ensures ApplySet(u, xs).Some? <==> AllAccepted(xs)
    ensures ApplySet(u, xs).Some? ==> ApplySet(u, xs).value.watched == u.watched
    decreases xs
  {
    if xs != [] {
      SetItemAccepts(u, xs[0]);
      AllAcceptedCons(xs);
      if SetItem(u, xs[0]).Some? {
        ApplySetAccepts(SetItem(u, xs[0]).value, xs[1..]);
      }
    }
  }

  /** A column the SET list does not name keeps its value. */
  lemma {:induction false} ApplySetKeeps(u: User, xs: seq<Assign>, c: Column)
    requires ApplySet(u, xs).Some?
    requires forall k :: 0 <= k < |xs| ==> xs[k].column != c
    ensures SameAt(u, ApplySet(u, xs).value, c)
    decreases xs
  {
    if xs != [] {
      SetItemAccepts(u, xs[0]);
      SetItemEffect(u, xs[0]);
      ApplySetKeeps(SetItem(u, xs[0]).value, xs[1..], c);
    }
  }

  /** What a later item on another column leaves in place. */
  lemma HoldsKept(v: User, w: User, a: Assign)
    requires Holds(v, a) && SameAt(v, w, a.column)
    ensures Holds(w, a)
  {
  }

  predicate DistinctColumns(xs: seq<Assign>) {
    forall j, k :: 0 <= j < k < |xs| ==> xs[j].column != xs[k].column
  }

  /** When the SET list names each column once, the row holds every item of it. */
  lemma {:induction false} ApplySetHolds(u: User, xs: seq<Assign>)
    requires ApplySet(u, xs).Some? && DistinctColumns(xs)
    ensures forall k :: 0 <= k < |xs| ==> Holds(ApplySet(u, xs).value, xs[k])
    decreases xs
  {
    if xs != [] {
      var a, rest := xs[0], xs[1..];
      SetItemAccepts(u, a);
      SetItemEffect(u, a);
      var v := SetItem(u, a).value;
      var w := ApplySet(u, xs).value;
      assert forall k :: 1 <= k < |xs| ==> xs[k] == rest[k - 1];
      ApplySetHolds(v, rest);
      ApplySetKeeps(v, rest, a.column);
      HoldsKept(v, w, a);
    }
  }

  /**
   * The row the update should leave: each given field set (the authority
   * normalised, the tags normalised, the password only when truthy), the
   * rest kept; None when NULL is given for a NOT NULL column.
   */
  function Updated(u: User, b: UserBody): Option<User> {
    if b.fullName == Null || b.role == Null || b.username == Null || b.email == Null then None
    else Some(User(
      if b.fullName.Str? then b.fullName.text else u.fullName,
      if b.role.Str? then b.role.text else u.role,
      if b.workArea != Undefined then Nullable(b.workArea) else u.workArea,
      if b.authority != Undefined then Some(NormAuth(b.authority)) else u.authority,
      if b.username.Str? then b.username.text else u.username,
      if b.email.Str? then b.email.text else u.email,
      if Truthy(b.password) then Some(b.password.text) else u.password,
      if b.tags.TagArray? || b.tags.TagString? then NormalizeTags(b.tags) else u.tags,
      if b.school != Undefined then Nullable(b.school) else u.school,
      if b.department != Undefined then Nullable(b.department) else u.department,
      u.watched))
  }

  /** The column `c` of the row after the update, as the body asks for it. */
  lemma UpdatedColumn(u: User, b: UserBody, w: User, c: Column)
    requires ApplySet(u, Assignments(b)) == Some(w)
    ensures Test(b, c).Some? ==> Holds(w, Test(b, c).value)
    ensures Test(b, c).None? ==> SameAt(u, w, c)
  {
    var xs := Assignments(b);
    ColumnAssigned(b, c);
    if Test(b, c).Some? {
      AssignmentsOrdered(b);
      ApplySetHolds(u, xs);
      var k :| 0 <= k < |xs| && xs[k] == Test(b, c).value;
    } else {
      assert forall k :: 0 <= k < |xs| ==> xs[k] in xs;
      ApplySetKeeps(u, xs, c);
    }
  }

  /** Executing the UPDATE the handler builds leaves exactly the row `Updated` describes. */
  lemma UpdatedRow(u: User, b: UserBody)
    ensures ApplySet(u, Assignments(b)) == Updated(u, b)
  {
    var xs := Assignments(b);
    ApplySetAccepts(u, xs);
    if ApplySet(u, xs).Some? {
      UpdatedRowSome(u, b);
    } else {
      assert !AllAccepted(xs);
      var k :| 0 <= k < |xs| && !Accepts(xs[k]);
      var a := xs[k];
      assert a in xs;
      ColumnAssigned(b, a.column);
      assert Test(b, a.column) == Some(a);
      assert NotNullColumn(a.column) && a.value == FieldParam(Null);
    }
  }

  /** The NOT NULL columns: never set to NULL, set to a given text, kept otherwise. */
  lemma UpdatedRequired(u: User, b: UserBody, w: User)
    requires ApplySet(u, Assignments(b)) == Some(w)
    ensures b.fullName != Null && b.role != Null && b.username != Null && b.email != Null
    ensures w.fullName == if b.fullName.Str? then b.fullName.text else u.fullName
    ensures w.role == if b.role.Str? then b.role.text else u.role
    ensures w.username == if b.username.Str? then b.username.text else u.username
    ensures w.email == if b.email.Str? then b.email.text else u.email
  {
    UpdatedColumn(u, b, w, FullNameCol);
    UpdatedColumn(u, b, w, RoleCol);
    UpdatedColumn(u, b, w, UsernameCol);
    UpdatedColumn(u, b, w, EmailCol);
  }

  /** The nullable text columns: set (possibly to NULL) when given, kept otherwise. */
  lemma UpdatedNullable(u: User, b: UserBody, w: User)
    requires ApplySet(u, Assignments(b)) == Some(w)
    ensures w.workArea == if b.workArea != Undefined then Nullable(b.workArea) else u.workArea
    ensures w.school == if b.school != Undefined then Nullable(b.school) else u.school
    ensures w.department == if b.department != Undefined then Nullable(b.department) else u.department
  {
    UpdatedColumn(u, b, w, WorkAreaCol);
    UpdatedColumn(u, b, w, SchoolCol);
    UpdatedColumn(u, b, w, DepartmentCol);
  }

  /** The authority is stored normalised, the tags normalised, and the password only when truthy. */
  lemma UpdatedNormalised(u: User, b: UserBody, w: User)
    requires ApplySet(u, Assignments(b)) == Some(w)
    ensures w.authority == if b.authority != Undefined then Some(NormAuth(b.authority)) else u.authority
    ensures w.tags == if b.tags.TagArray? || b.tags.TagString? then NormalizeTags(b.tags) else u.tags
    ensures w.password == if Truthy(b.password) then Some(b.password.text) else u.password
  {
    UpdatedColumn(u, b, w, AuthorityCol);
    UpdatedColumn(u, b, w, TagsCol);
    UpdatedColumn(u, b, w, PasswordCol);
  }

  lemma UpdatedRowSome(u: User, b: UserBody)
    requires ApplySet(u, Assignments(b)).Some?
    ensures Updated(u, b) == ApplySet(u, Assignments(b))
  {
    var w := ApplySet(u, Assignments(b)).value;
    ApplySetAccepts(u, Assignments(b));
    UpdatedRequired(u, b, w);
    UpdatedNullable(u, b, w);
    UpdatedNormalised(u, b, w);
  }

  /* ---------------------------------------------------------- PUT /:id */

  /** The handler checks for a duplicate only when the username or the email is truthy. */
  predicate DupChecked(b: UserBody) {
    Truthy(b.username) || Truthy(b.email)
  }

  /**
   * The duplicate query: another user has the username or the email; a
   * falsy one is bound as NULL, which matches nothing.
   */
  predicate DupFound(users: map<int, User>, id: int, b: UserBody) {
    exists other :: other in users && other != id &&
      ((Truthy(b.username) && users[other].username == b.username.text) ||
       (Truthy(b.email) && users[other].email == b.email.text))
  }

  /** The unique constraints on username and email reject row `v` for user `id`. */
  predicate Clashes(users: map<int, User>, id: int, v: User) {
    exists other :: other in users && other != id && (users[other].username == v.username || users[other].email == v.email)
  }

  /** The handler's early 409 never turns away an update the unique constraints would accept. */
  lemma DupFoundClashes(users: map<int, User>, id: int, b: UserBody, v: User)
    requires id in users && Updated(users[id], b) == Some(v)
    requires DupFound(users, id, b)
    ensures Clashes(users, id, v)
  {
    var other :| other in users && other != id &&
      ((Truthy(b.username) && users[other].username == b.username.text) ||
       (Truthy(b.email) && users[other].email == b.email.text));
  }

  /**
   * When the username and the email are each absent or truthy, the
   * early check finds every clash, so the unique constraints never fire;
   * an empty username or email is not checked and is left to them.
   */
  lemma DupCheckSuffices(users: map<int, User>, id: int, b: UserBody, v: User)
    requires UsersDistinct(users) && id in users && Updated(users[id], b) == Some(v)
    requires b.username.Str? ==> Truthy(b.username)
    requires b.email.Str? ==> Truthy(b.email)
    requires !DupFound(users, id, b)
    ensures !Clashes(users, id, v)
  {
    assert Distinct(users, id, users[id]);
  }

  /**
   * PUT /users/:id. `id` is the path parameter read as a number, None
   * when it is not an integer. A 400 for a bad id, the duplicate check
   * (409), a 400 when there is nothing to set, then the UPDATE: no row
   * is a 404, a row the constraints reject is a 500, otherwise the
   * updated user.
   */
  method UpdateUserRoute(db: Database, id: Option<int>, b: UserBody, fault: Option<Stmt>) returns (reply: Reply<Profile>)
    requires db.Valid()
    modifies db`t
    ensures db.Valid()
    ensures reply.Failed? ==> db.t == old(db.t)
    ensures id.None? ==> reply == Failed(400, InvalidUserId)
    ensures id.Some? && DupChecked(b) && fault == Some(FindDuplicateUser) ==> reply == Failed(500, Internal)
    ensures id.Some? && DupChecked(b) && fault != Some(FindDuplicateUser) && DupFound(old(db.t.users), id.value, b) ==>
      reply == Failed(409, UserTaken)
    ensures reply == Failed(409, UserTaken) ==> DupChecked(b) && DupFound(old(db.t.users), id.value, b)
    ensures id.Some? && !(DupChecked(b) && (fault == Some(FindDuplicateUser) || DupFound(old(db.t.users), id.value, b))) ==>
      && (NothingGiven(b) ==> reply == Failed(400, NothingToUpdate))
      && (!NothingGiven(b) && fault == Some(UpdateUserRow) ==> reply == Failed(500, Internal))
      && (!NothingGiven(b) && fault != Some(UpdateUserRow) && id.value !in old(db.t.users) ==> reply == Failed(404, UserNotFound))
      && (!NothingGiven(b) && fault != Some(UpdateUserRow) && id.value in old(db.t.users) && !reply.Done? ==>
            reply == Failed(500, Internal))
    ensures reply.Done? <==>
      && id.Some? && !(DupChecked(b) && (fault == Some(FindDuplicateUser) || DupFound(old(db.t.users), id.value, b)))
      && !NothingGiven(b) && fault != Some(UpdateUserRow) && id.value in old(db.t.users)
      && Updated(old(db.t.users)[id.value], b).Some?
      && !Clashes(old(db.t.users), id.value, Updated(old(db.t.users)[id.value], b).value)
    ensures reply.Done? ==>
      && var v := Updated(old(db.t.users)[id.value], b).value;
      && reply == Done(200, Camelize(id.value, v))
      && db.t == old(db.t).(users := old(db.t.users)[id.value := v])
  {
    if id.None? {
      return Failed(400, InvalidUserId);
    }
    var uid := id.value;
    if Truthy(b.username) || Truthy(b.email) {
      if fault == Some(FindDuplicateUser) {
        return Failed(500, Internal);
      }
      if DupFound(db.t.users, uid, b) {
        return Failed(409, UserTaken);
      }
    }
    var fields, values, where := BuildUpdate(b, uid);
    AssignmentsEmpty(b);
    if |fields| == 0 {
      return Failed(400, NothingToUpdate);
    }
    if fault == Some(UpdateUserRow) {
      return Failed(500, Internal);
    }
    if uid !in db.t.users {
      return Failed(404, UserNotFound);
    }
    var row := ApplySet(db.t.users[uid], Assignments(b));
    UpdatedRow(db.t.users[uid], b);
    if row.None? || Clashes(db.t.users, uid, row.value) {
      return Failed(500, Internal);
    }
    db.UpdateUser(uid, row.value);
    reply := Done(200, Camelize(uid, row.value));
  }

  /* ------------------------------------------ PUT /:id/education-list */

  /** An element of `entries`; the handler reads its two fields. */
  datatype EntryInput = EntryInput(school: Field, department: Field)

  /** The `entries` body field: an array, or anything else. */
  datatype EntriesInput = EntryArray(items: seq<EntryInput>) | EntriesOther

  /** A cleaned entry. */
  datatype Entry = Entry(school: string, department: string)

  /** Both texts of an entry, a falsy one read as "", trimmed. */
  function CleanEntry(e: EntryInput): Entry {
    Entry(Trim(TextOrEmpty(e.school)), Trim(TextOrEmpty(e.department)))
  }

  /** Both texts are non-empty: the entries the handler keeps. */
  predicate Filled(e: Entry) {
    e.school != "" && e.department != ""
  }

  /** Every entry cleaned, in order. */
  function CleanEach(items: seq<EntryInput>): (r: seq<Entry>)
    ensures |r| == |items|
    ensures forall i :: 0 <= i < |r| ==> r[i] == CleanEntry(items[i])
  {
    if items == [] then [] else [CleanEntry(items[0])] + CleanEach(items[1..])
  }

  /** The filled entries, in order. */
  function FilledOnly(es: seq<Entry>): (r: seq<Entry>)
    ensures forall i :: 0 <= i < |r| ==> Filled(r[i])
  {
    if es == [] then []
    else if Filled(es[0]) then [es[0]] + FilledOnly(es[1..])
    else FilledOnly(es[1..])
  }

  /** The cleaned entries that have both a school and a department, in input order. */
  function CleanEntries(items: seq<EntryInput>): (r: seq<Entry>)
    ensures forall i :: 0 <= i < |r| ==> Filled(r[i])
  {
    FilledOnly(CleanEach(items))
  }

  /** A cleaned entry is trimmed. */
  predicate Trimmed(e: Entry) {
    Trim(e.school) == e.school && Trim(e.department) == e.department
  }

  lemma CleanEntryTrimmed(e: EntryInput)
    ensures Trimmed(CleanEntry(e))
  {
    TrimIdempotent(TextOrEmpty(e.school));
    TrimIdempotent(TextOrEmpty(e.department));
  }

  /** The filter keeps trimmed entries trimmed. */
  lemma {:induction false} FilledOnlyTrimmed(es: seq<Entry>)
    requires forall i :: 0 <= i < |es| ==> Trimmed(es[i])
    ensures forall i :: 0 <= i < |FilledOnly(es)| ==> Trimmed(FilledOnly(es)[i])
  {
    if es != [] {
      FilledOnlyTrimmed(es[1..]);
    }
  }

  /** Every saved entry is trimmed and has both a school and a department. */
  lemma CleanEntriesTrimmed(items: seq<EntryInput>)
    ensures forall i :: 0 <= i < |CleanEntries(items)| ==> Trimmed(CleanEntries(items)[i]) && Filled(CleanEntries(items)[i])
  {
    var cs := CleanEach(items);
    forall i | 0 <= i < |cs| ensures Trimmed(cs[i]) {
      CleanEntryTrimmed(items[i]);
    }
    FilledOnlyTrimmed(cs);
  }

  lemma {:induction false} CleanEachAppend(a: seq<EntryInput>, b: seq<EntryInput>)
    ensures CleanEach(a + b) == CleanEach(a) + CleanEach(b)
  {
    if a == [] {
      assert a + b == b;
    } else {
      assert (a + b)[0] == a[0];
      assert (a + b)[1..] == a[1..] + b;
      CleanEachAppend(a[1..], b);
    }
  }

  lemma {:induction false} FilledOnlyAppend(a: seq<Entry>, b: seq<Entry>)
    ensures FilledOnly(a + b) == FilledOnly(a) + FilledOnly(b)
  {
    if a == [] {
      assert a + b == b;
    } else {
      assert (a + b)[0] == a[0];
      assert (a + b)[1..] == a[1..] + b;
      FilledOnlyAppend(a[1..], b);
    }
  }

  /** Cleaning works entry by entry: the list of a concatenation is the concatenation of the lists. */
  lemma CleanEntriesAppend(a: seq<EntryInput>, b: seq<EntryInput>)
    ensures CleanEntries(a + b) == CleanEntries(a) + CleanEntries(b)
  {
    CleanEachAppend(a, b);
    FilledOnlyAppend(CleanEach(a), CleanEach(b));
  }

  /** Entries as a client sends them back: each text as a JSON string. */
  function AsInputs(es: seq<Entry>): (r: seq<EntryInput>)
    ensures |r| == |es|
  {
    seq(|es|, k requires 0 <= k < |es| => EntryInput(Str(es[k].school), Str(es[k].department)))
  }

  lemma {:induction false} FilledOnlyOfFilled(es: seq<Entry>)
    requires forall i :: 0 <= i < |es| ==> Filled(es[i])
    ensures FilledOnly(es) == es
  {
    if es != [] {
      FilledOnlyOfFilled(es[1..]);
    }
  }

  /** Saving the cleaned list again saves the same list. */
  lemma CleanEntriesOfClean(es: seq<Entry>)
    requires forall i :: 0 <= i < |es| ==> Filled(es[i]) && Trimmed(es[i])
    ensures CleanEntries(AsInputs(es)) == es
  {
    assert CleanEach(AsInputs(es)) == es;
    FilledOnlyOfFilled(es);
  }

  /** The rows the loop inserts: consecutive ids from `first`, in list order. */
  function Numbered(first: int, userId: int, es: seq<Entry>): (r: seq<EducationRow>)
    ensures |r| == |es|
  {
    seq(|es|, k requires 0 <= k < |es| => EducationRow(first + k, Education(userId, es[k].school, es[k].department)))
  }

  lemma NumberedStep(first: int, userId: int, es: seq<Entry>, k: nat)
    requires k < |es|
    ensures Numbered(first, userId, es[..k + 1])
      == Numbered(first, userId, es[..k]) + [EducationRow(first + k, Education(userId, es[k].school, es[k].department))]
  {
    assert Numbered(first, userId, es[..k + 1])
      == Numbered(first, userId, es[..k]) + [EducationRow(first + k, Education(userId, es[k].school, es[k].department))];
  }

  lemma NumberedAfter(before: seq<EducationRow>, first: int, userId: int, es: seq<Entry>, k: nat)
    requires k < |es|
    ensures before + Numbered(first, userId, es[..k + 1])
      == (before + Numbered(first, userId, es[..k])) + [EducationRow(first + k, Education(userId, es[k].school, es[k].department))]
  {
    NumberedStep(first, userId, es, k);
  }

  /** The rows of one user, in table (id) order. */
  function RowsOf(es: seq<EducationRow>, userId: int): (r: seq<EducationRow>)
    ensures forall i :: 0 <= i < |r| ==> r[i].entry.userId == userId
  {
    if es == [] then []
    else if es[0].entry.userId == userId then [es[0]] + RowsOf(es[1..], userId)
    else RowsOf(es[1..], userId)
  }

  lemma {:induction false} RowsOfAppend(a: seq<EducationRow>, b: seq<EducationRow>, userId: int)
    ensures RowsOf(a + b, userId) == RowsOf(a, userId) + RowsOf(b, userId)
  {
    if a == [] {
      assert a + b == b;
    } else {
      assert (a + b)[0] == a[0];
      assert (a + b)[1..] == a[1..] + b;
      RowsOfAppend(a[1..], b, userId);
    }
  }

  /** Deleting one user's rows leaves none of theirs and every row of everybody else. */
  lemma {:induction false} RowsOfOther(es: seq<EducationRow>, userId: int, someone: int)
    ensures RowsOf(OtherEducation(es, userId), someone) == if someone == userId then [] else RowsOf(es, someone)
  {
    if es != [] {
      RowsOfOther(es[1..], userId, someone);
      if es[0].entry.userId != userId {
        assert OtherEducation(es, userId) == [es[0]] + OtherEducation(es[1..], userId);
        assert ([es[0]] + OtherEducation(es[1..], userId))[1..] == OtherEducation(es[1..], userId);
      }
    }
  }

  /** A list of one user's rows is theirs entirely, and nobody else's. */
  lemma {:induction false} RowsOfOwn(rs: seq<EducationRow>, userId: int, someone: int)
    requires forall i :: 0 <= i < |rs| ==> rs[i].entry.userId == userId
    ensures RowsOf(rs, someone) == if someone == userId then rs else []
  {
    if rs != [] {
      RowsOfOwn(rs[1..], userId, someone);
    }
  }

  /**
   * After the replacement, the user's rows are exactly the inserted ones
   * and every other user's rows are as before.
   */
  lemma Replaced(es: seq<EducationRow>, userId: int, rows: seq<EducationRow>, someone: int)
    requires forall i :: 0 <= i < |rows| ==> rows[i].entry.userId == userId
    ensures RowsOf(OtherEducation(es, userId) + rows, someone) == if someone == userId then rows else RowsOf(es, someone)
  {
    RowsOfAppend(OtherEducation(es, userId), rows, someone);
    RowsOfOther(es, userId, someone);
    RowsOfOwn(rows, userId, someone);
  }

  /** The saved rows read back as the cleaned list, in order. */
  lemma NumberedEntries(first: int, userId: int, es: seq<Entry>)
    ensures forall k :: 0 <= k < |es| ==>
      Entry(Numbered(first, userId, es)[k].entry.school, Numbered(first, userId, es)[k].entry.department) == es[k]
  {
  }

  function Reverse<T>(s: seq<T>): (r: seq<T>)
    ensures |r| == |s| && forall i :: 0 <= i < |s| ==> r[i] == s[|s| - 1 - i]
  {
    if s == [] then [] else Reverse(s[1..]) + [s[0]]
  }

  /** The replacement fails at one of its statements. */
  predicate EducationFault(fault: Option<Stmt>, n: nat) {
    fault == Some(DeleteEducation) || (fault.Some? && fault.value.InsertEducationRow? && fault.value.k < n)
  }

  /**
   * PUT /users/:id/education-list. `authorised` says the token's user is
   * the user of the path. A 403, then a 400 when `entries` is not an
   * array; then, in one transaction, the user's rows are deleted and the
   * cleaned entries inserted in order. The answer is the user's rows,
   * newest first: they were all inserted in this transaction, so they
   * share one created_at and come back by id, descending. A failing
   * statement (a missing user fails the first insert) rolls back and is
   * a 500.
   */
  method ReplaceEducation(db: Database, userId: int, authorised: bool, entries: EntriesInput, fault: Option<Stmt>)
    returns (reply: Reply<seq<EducationRow>>)
    requires db.Valid()
    modifies db`t, db`serial, db`openTx
    ensures db.Valid() && db.openTx == old(db.openTx)
    ensures db.serial == old(db.serial).(education := db.serial.education) && db.serial.education >= old(db.serial.education)
    ensures reply.Failed? ==> db.t == old(db.t)
    ensures !authorised ==> reply == Failed(403, Forbidden)
    ensures authorised && entries.EntriesOther? ==> reply == Failed(400, EntriesNotArray)
    ensures authorised && entries.EntryArray? ==>
      var clean := CleanEntries(entries.items);
      reply.Done? <==> !EducationFault(fault, |clean|) && (clean != [] ==> userId in old(db.t.users))
    ensures authorised && entries.EntryArray? && reply.Failed? ==> reply == Failed(500, Internal)
    ensures reply.Done? ==>
      && authorised && entries.EntryArray?
      && var rows := Numbered(old(db.serial.education), userId, CleanEntries(entries.items));
      && db.t == old(db.t).(education := OtherEducation(old(db.t.education), userId) + rows)
      && db.serial == old(db.serial).(education := old(db.serial.education) + |rows|)
      && reply == Done(200, Reverse(rows))
  {
    if !authorised {
      return Failed(403, Forbidden);
    }
    if entries.EntriesOther? {
      return Failed(400, EntriesNotArray);
    }
    reply := SaveEducation(db, userId, CleanEntries(entries.items), fault);
  }

  /**
   * The transaction of the replacement: the user's rows are deleted and
   * `clean` inserted in order; a failing statement rolls everything back.
   */
  method SaveEducation(db: Database, userId: int, clean: seq<Entry>, fault: Option<Stmt>)
    returns (reply: Reply<seq<EducationRow>>)
    requires db.Valid()
    modifies db`t, db`serial, db`openTx
    ensures db.Valid() && db.openTx == old(db.openTx)
    ensures db.serial == old(db.serial).(education := db.serial.education) && db.serial.education >= old(db.serial.education)
    ensures reply.Done? <==> !EducationFault(fault, |clean|) && (clean != [] ==> userId in old(db.t.users))
    ensures reply.Failed? ==> db.t == old(db.t) && reply == Failed(500, Internal)
    ensures reply.Done? ==>
      && var rows := Numbered(old(db.serial.education), userId, clean);
      && db.t == old(db.t).(education := OtherEducation(old(db.t.education), userId) + rows)
      && db.serial == old(db.serial).(education := old(db.serial.education) + |rows|)
      && reply == Done(200, Reverse(rows))
  {
    db.Begin();
    var snapshot := db.t;
    if fault == Some(DeleteEducation) {
      db.Rollback(snapshot);
      return Failed(500, Internal);
    }
    db.DeleteEducationOf(userId);
    ghost var base := db.t;
    ghost var tx := db.openTx;
    var k := 0;
    while k < |clean|
      invariant 0 <= k <= |clean|
      invariant Replacing(db, snapshot, base, old(db.serial), tx, userId, clean, k, fault)
    {
      var ok := InsertEntry(db, snapshot, base, old(db.serial), tx, userId, clean, k, fault);
      if !ok {
        return Failed(500, Internal);
      }
      k := k + 1;
    }
    db.Commit();
    assert clean[..k] == clean;
    Replaced(old(db.t.education), userId, Numbered(old(db.serial.education), userId, clean), userId);
    reply := Done(200, Reverse(RowsOf(db.t.education, userId)));
  }

  /**
   * The state inside the replacement after `k` inserts: the transaction is
   * open, the tables are `base` (the user's rows deleted) with the first `k`
   * cleaned entries appended under consecutive ids, and neither statement
   * has failed so far.
   */
  ghost predicate Replacing(db: Database, snapshot: Tables, base: Tables, s0: Serials, tx: nat,
                            userId: int, clean: seq<Entry>, k: nat, fault: Option<Stmt>)
    reads db
  {
    && k <= |clean| && db.Valid() && db.openTx == tx && tx > 0
    && Consistent(snapshot) && Fits(snapshot, db.serial)
    && db.serial == s0.(education := s0.education + k)
    && db.t == base.(education := db.t.education)
    && db.t.education == base.education + Numbered(s0.education, userId, clean[..k])
    && !EducationFault(fault, k)
    && (k > 0 ==> userId in base.users)
  }

  /** One turn of the insert loop: the next entry is inserted, or the transaction is rolled back. */
  method InsertEntry(db: Database, snapshot: Tables, ghost base: Tables, ghost s0: Serials, ghost tx: nat,
                     userId: int, clean: seq<Entry>, k: nat, fault: Option<Stmt>)
    returns (ok: bool)
    requires k < |clean| && Replacing(db, snapshot, base, s0, tx, userId, clean, k, fault)
    modifies db`t, db`serial, db`openTx
    ensures ok <==> userId in base.users && fault != Some(InsertEducationRow(k))
    ensures ok ==> Replacing(db, snapshot, base, s0, tx, userId, clean, k + 1, fault)
    ensures !ok ==> db.Valid() && db.t == snapshot && db.openTx == tx - 1 && db.serial == old(db.serial)
  {
    if userId !in db.t.users || fault == Some(InsertEducationRow(k)) {
      db.Rollback(snapshot);
      return false;
    }
    ghost var s := db.serial;
    var id := db.InsertEducation(Education(userId, clean[k].school, clean[k].department));
    FitsLater(snapshot, s, db.serial);
    NumberedAfter(base.education, s0.education, userId, clean, k);
    ok := true;
  }

  /* -------------------------------------------- POST/PATCH /:id/watched */

  /** The watched list with `v` appended when it is not there yet. */
  function Watch(w: seq<int>, v: int): (r: seq<int>)
    ensures v in r && forall x :: x in r <==> x in w || x == v
    ensures |w| <= |r| && r[..|w|] == w
  {
    if v in w then w else w + [v]
  }

  /** Recording the same video twice records it once. */
  lemma WatchIdempotent(w: seq<int>, v: int)
    ensures Watch(Watch(w, v), v) == Watch(w, v)
  {
  }

  /** The watched list never holds a video twice. */
  lemma WatchNoRepeats(w: seq<int>, v: int)
    requires NoRepeats(w)
    ensures NoRepeats(Watch(w, v))
  {
  }

  /**
   * POST /users/:id/watched. A 400 for a videoId that is not a number,
   * then a 403; then, in one transaction, the user's row is read (a 404
   * when there is none), the video is appended to watched_videos when it
   * is not there yet, and the view is logged once (ON CONFLICT DO
   * NOTHING). A failing statement, or a video that does not exist (the
   * foreign key of the log), rolls back and is a 500. The answer is the
   * watched list read after the commit.
   */
  method RecordWatch(db: Database, userId: int, authorised: bool, videoId: Option<int>, fault: Option<Stmt>)
    returns (reply: Reply<seq<int>>)
    requires db.Valid()
    modifies db`t, db`openTx
    ensures db.Valid() && db.openTx == old(db.openTx)
    ensures reply.Failed? ==> db.t == old(db.t)
    ensures videoId.None? ==> reply == Failed(400, InvalidVideoId)
    ensures videoId.Some? && !authorised ==> reply == Failed(403, Forbidden)
    ensures videoId.Some? && authorised && fault == Some(LockUser) ==> reply == Failed(500, Internal)
    ensures videoId.Some? && authorised && fault != Some(LockUser) && userId !in old(db.t.users) ==>
      reply == Failed(404, UserNotFound)
    ensures videoId.Some? && authorised && userId in old(db.t.users) && reply.Failed? ==> reply == Failed(500, Internal)
    ensures reply.Done? <==>
      && videoId.Some? && authorised && fault != Some(LockUser) && userId in old(db.t.users)
      && (videoId.value !in old(db.t.users)[userId].watched ==> fault != Some(UpdateWatched))
      && fault != Some(InsertView) && videoId.value in old(db.t.videos)
    ensures reply.Done? ==>
      && var u := old(db.t.users)[userId];
      && var w := Watch(u.watched, videoId.value);
      && reply == Done(201, w)
      && db.t == old(db.t).(users := old(db.t.users)[userId := u.(watched := w)],
                            views := old(db.t.views) + {View(userId, videoId.value)})
  {
    if videoId.None? {
      return Failed(400, InvalidVideoId);
    }
    var vid := videoId.value;
    if !authorised {
      return Failed(403, Forbidden);
    }
    db.Begin();
    var snapshot := db.t;
    if fault == Some(LockUser) {
      db.Rollback(snapshot);
      return Failed(500, Internal);
    }
    if userId !in db.t.users {
      db.Rollback(snapshot);
      return Failed(404, UserNotFound);
    }
    var u := db.t.users[userId];
    var arr := u.watched;
    if vid !in arr {
      if fault == Some(UpdateWatched) {
        db.Rollback(snapshot);
        return Failed(500, Internal);
      }
      assert Distinct(db.t.users, userId, u);
      db.UpdateUser(userId, u.(watched := arr + [vid]));
    } else {
      assert u.(watched := Watch(arr, vid)) == u;
    }
    if fault == Some(InsertView) || vid !in db.t.videos {
      db.Rollback(snapshot);
      return Failed(500, Internal);
    }
    db.InsertView(View(userId, vid));
    db.Commit();
    reply := Done(201, db.t.users[userId].watched);
  }

  /** What the PATCH handler reads: the user's watched list, or [] when there is no such user. */
  function Current(users: map<int, User>, userId: int): seq<int> {
    if userId in users then users[userId].watched else []
  }

  /**
   * PATCH /users/:id/watched: the same append without a transaction,
   * without the view log and without a 404. For a missing user the
   * UPDATE matches no row, yet the answer is the one-video list.
   */
  method PatchWatched(db: Database, userId: int, authorised: bool, videoId: Option<int>, fault: Option<Stmt>)
    returns (reply: Reply<seq<int>>)
    requires db.Valid()
    modifies db`t
    ensures db.Valid()
    ensures reply.Failed? ==> db.t == old(db.t)
    ensures videoId.None? ==> reply == Failed(400, InvalidVideoId)
    ensures videoId.Some? && !authorised ==> reply == Failed(403, Forbidden)
    ensures videoId.Some? && authorised ==>
      && var current := Current(old(db.t.users), userId);
      && (fault == Some(ReadWatched) ==> reply == Failed(500, Internal))
      && (fault != Some(ReadWatched) && videoId.value !in current && fault == Some(UpdateWatched) ==>
            reply == Failed(500, Internal))
      && (fault != Some(ReadWatched) && (videoId.value in current || fault != Some(UpdateWatched)) ==>
            reply == Done(200, Watch(current, videoId.value)))
    ensures reply.Done? ==>
      db.t == if userId in old(db.t.users)
              then old(db.t).(users := old(db.t.users)[userId := old(db.t.users)[userId].(watched := reply.body)])
              else old(db.t)
  {
    if videoId.None? {
      return Failed(400, InvalidVideoId);
    }
    var vid := videoId.value;
    if !authorised {
      return Failed(403, Forbidden);
    }
    if fault == Some(ReadWatched) {
      return Failed(500, Internal);
    }
    var current := Current(db.t.users, userId);
    if vid in current {
      if userId in db.t.users {
        assert db.t.users[userId].(watched := current) == db.t.users[userId];
        assert db.t.users[userId := db.t.users[userId]] == db.t.users;
      }
      return Done(200, current);
    }
    var updated := current + [vid];
    if fault == Some(UpdateWatched) {
      return Failed(500, Internal);
    }
    if userId in db.t.users {
      var u := db.t.users[userId];
      assert Distinct(db.t.users, userId, u);
      db.UpdateUser(userId, u.(watched := updated));
    }
    reply := Done(200, updated);
  }
}
