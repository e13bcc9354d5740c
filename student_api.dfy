/**
 * The server side: the student API controller of the Laravel back end. The Eloquent queries
 * are input tables (`students`, `emplois`, `jours`) scanned in query order, `Hash::check`,
 * `createToken` and `asset` are function parameters, and a JSON response is a `Reply`.
 */
module StudentApi {
  import opened Wrappers
  import opened Seqs

  const UNKNOWN_NNI: string := "رقم التعريف الوطني غير صحيح"
  const NO_ACCOUNT: string := "لم يتم إنشاء حساب لهذا الطالب"
  const WRONG_PASSWORD: string := "كلمة المرور غير صحيحة"
  const LOGIN_OK: string := "تم تسجيل الدخول بنجاح"
  const STUDENT_NOT_FOUND: string := "الطالب غير موجود"
  const PROFILE_OK: string := "تم جلب البيانات بنجاح"
  const NOT_ENROLLED: string := "الطالب غير مسجل في أي فصل"
  const UNSPECIFIED: string := "غير محدد"
  const SCHEDULE_OK: string := "تم جلب الجدول الزمني بنجاح"

  // --------------------------------------------------------------------------- records

  /** A related record read through `->nom` (`niveau`, `specialite`). */
  datatype Named = Named(nom: Option<string>)
  /** The academic year, read through `->annee`. */
  datatype Year = Year(annee: Option<string>)
  datatype Classe = Classe(id: int, nom: Option<string>, niveau: Option<Named>,
                           specialite: Option<Named>, annee: Option<Year>)
  datatype User = User(id: int, password: string)
  /** A row of `students` with its `classe` and `user` relations loaded. */
  datatype Student = Student(id: int, nni: string, userId: Option<int>, fullname: Option<string>,
                             parentName: Option<string>, phone: Option<string>, image: Option<string>,
                             classe: Option<Classe>, user: Option<User>)
  /** A subject, teacher or trimester. */
  datatype Related = Related(id: int, nom: Option<string>)
  datatype Horaire = Horaire(id: int, heureDebut: Option<string>, heureFin: Option<string>,
                             libelleFr: Option<string>, libelleAr: Option<string>)
  /** A row of `emplois_temps` with its relations loaded. */
  datatype Lesson = Lesson(id: int, classId: int, jourId: int, matiere: Option<Related>,
                           enseignant: Option<Related>, trimestre: Option<Related>,
                           horaires: Option<seq<Horaire>>)
  datatype Jour = Jour(id: int, nom: string, ordre: int)

  // ----------------------------------------------------------------------------- views

  datatype ClassView = ClassView(id: int, nom: Option<string>, niveau: string, specialite: string, annee: string)
  datatype StudentView = StudentView(id: int, nni: string, fullname: Option<string>, parentName: Option<string>,
                                     phone: Option<string>, image: Option<string>, classe: Option<ClassView>)
  datatype LoginData = LoginData(student: StudentView, token: string)
  datatype RefView = RefView(id: Option<int>, name: string)
  datatype HoraireView = HoraireView(id: int, startTime: Option<string>, endTime: Option<string>,
                                     libelleFr: Option<string>, libelleAr: Option<string>)
  datatype LessonView = LessonView(id: int, subject: RefView, teacher: RefView, trimester: RefView,
                                   horaires: seq<HoraireView>)
  /** One key of `$schedule`: a day name and that day's lessons, each with the index it had in
      the query result (`where` keeps the keys of the collection). */
  datatype Entry = Entry(day: string, lessons: seq<(nat, LessonView)>)
  datatype ScheduleData = ScheduleData(classId: int, className: Option<string>, schedule: seq<Entry>)

  /** A JSON response: a validation failure (422, naming the fields that failed), an error
      with its status and message, or a success with its message and payload. */
  datatype Reply<T> = Invalid(fields: seq<string>) | Fail(status: int, message: string) | Ok(message: string, data: T)
  {
    function Status(): int {
      match this
      case Invalid(_) => 422
      case Fail(status, _) => status
      case Ok(_, _) => 200
    }
  }

  // ------------------------------------------------------------------------ validation

  /** The characters PHP's `trim` removes by default. */
  predicate IsTrimmed(c: char) {
    c == ' ' || c == '\t' || c == '\n' || c == '\r' || c == '\U{0}' || c == '\U{B}'
  }

  /** Laravel's `required` on a string input: present and not blank once trimmed. */
  predicate Required(v: Option<string>) {
    v.Some? && exists i :: 0 <= i < |v.value| && !IsTrimmed(v.value[i])
  }

  /** The fields of the login request that fail `required`, in rule order. */
  function Violations(nni: Option<string>, password: Option<string>): (r: seq<string>)
    ensures "nni" in r <==> !Required(nni)
    ensures "password" in r <==> !Required(password)
    ensures r == [] <==> Required(nni) && Required(password)
    ensures |r| <= 2
  {
    (if Required(nni) then [] else ["nni"]) + (if Required(password) then [] else ["password"])
  }

  // ------------------------------------------------------------------------ queries

  /** `->first()` of a query: the position of the first row satisfying `p`. */
  function FirstIndex<T>(s: seq<T>, p: T -> bool): (r: Option<nat>)
    ensures r.Some? ==> r.value < |s| && p(s[r.value]) && forall j :: 0 <= j < r.value ==> !p(s[j])
    ensures r.None? ==> forall j :: 0 <= j < |s| ==> !p(s[j])
    decreases |s|
  {
    if s == [] then None
    else if p(s[0]) then Some(0)
    else
      match FirstIndex(s[1..], p)
      case None => None
      case Some(k) => Some(k + 1)
  }

  function HasNni(nni: string): Student -> bool {
    (s: Student) => s.nni == nni
  }

  function OwnedBy(userId: int): Student -> bool {
    (s: Student) => s.userId == Some(userId)
  }

  // ------------------------------------------------------------------------ projection

  /** PHP truthiness of a nullable string: `null`, `""` and `"0"` are falsy. */
  predicate PhpTruthy(v: Option<string>) {
    v.Some? && v.value != "" && v.value != "0"
  }

  /** `$x ?? ''`. */
  function OrEmpty(v: Option<string>): (r: string)
    ensures v.Some? ==> r == v.value
    ensures v.None? ==> r == ""
  {
    if v.Some? then v.value else ""
  }

  function ProjectClass(c: Classe): (r: ClassView)
    ensures r.id == c.id && r.nom == c.nom
    ensures c.niveau.None? ==> r.niveau == ""
    ensures c.niveau.Some? ==> r.niveau == OrEmpty(c.niveau.value.nom)
    ensures c.specialite.None? ==> r.specialite == ""
    ensures c.specialite.Some? ==> r.specialite == OrEmpty(c.specialite.value.nom)
    ensures c.annee.None? ==> r.annee == ""
    ensures c.annee.Some? ==> r.annee == OrEmpty(c.annee.value.annee)
  {
    ClassView(c.id, c.nom,
              if c.niveau.Some? then OrEmpty(c.niveau.value.nom) else "",
              if c.specialite.Some? then OrEmpty(c.specialite.value.nom) else "",
              if c.annee.Some? then OrEmpty(c.annee.value.annee) else "")
  }

  /** The student object of the `login` and `profile` responses. */
  function ProjectStudent(s: Student, asset: string -> string): (r: StudentView)
    ensures r.id == s.id && r.nni == s.nni && r.fullname == s.fullname
    ensures r.parentName == s.parentName && r.phone == s.phone
    ensures r.image.None? <==> !PhpTruthy(s.image)
    ensures r.image.Some? ==> r.image.value == asset("storage/" + s.image.value)
    ensures r.classe.None? <==> s.classe.None?
    ensures s.classe.Some? ==> r.classe == Some(ProjectClass(s.classe.value))
  {
    StudentView(s.id, s.nni, s.fullname, s.parentName, s.phone,
                if PhpTruthy(s.image) then Some(asset("storage/" + s.image.value)) else None,
                if s.classe.Some? then Some(ProjectClass(s.classe.value)) else None)
  }

  // --------------------------------------------------------------------------- login

  /** `login`: validation, then the three guards in order; a token is created only when all of
      them pass. */
  function Login(nni: Option<string>, password: Option<string>, students: seq<Student>,
                 check: (string, string) -> bool, createToken: User -> string,
                 asset: string -> string): (r: Reply<LoginData>)
    ensures r.Invalid? <==> !Required(nni) || !Required(password)
    ensures r.Invalid? ==> r.fields == Violations(nni, password)
    ensures !r.Invalid? ==>
      var found := FirstIndex(students, HasNni(nni.value));
      && (found.None? <==> r == Fail(401, UNKNOWN_NNI))
      && (found.Some? && students[found.value].user.None? <==> r == Fail(401, NO_ACCOUNT))
      && ((found.Some? && students[found.value].user.Some?
           && !check(password.value, students[found.value].user.value.password)) <==> r == Fail(401, WRONG_PASSWORD))
      && ((found.Some? && students[found.value].user.Some?
           && check(password.value, students[found.value].user.value.password)) <==> r.Ok?)
    ensures r.Ok? ==>
      exists k :: 0 <= k < |students| && students[k].nni == nni.value
        && (forall j :: 0 <= j < k ==> students[j].nni != nni.value)
        && students[k].user.Some? && check(password.value, students[k].user.value.password)
        && r == Ok(LOGIN_OK, LoginData(ProjectStudent(students[k], asset), createToken(students[k].user.value)))
    ensures r.Fail? ==> r.Status() == 401
  {
    if !(Required(nni) && Required(password)) then Invalid(Violations(nni, password))
    else match FirstIndex(students, HasNni(nni.value))
      case None => Fail(401, UNKNOWN_NNI)
      case Some(k) =>
        var s := students[k];
        if s.user.None? then Fail(401, NO_ACCOUNT)
        else if !check(password.value, s.user.value.password) then Fail(401, WRONG_PASSWORD)
        else Ok(LOGIN_OK, LoginData(ProjectStudent(s, asset), createToken(s.user.value)))
  }

  // ------------------------------------------------------------------------- profile

  /** `profile` for the authenticated user `userId`. */
  function Profile(userId: int, students: seq<Student>, asset: string -> string): (r: Reply<StudentView>)
    ensures r.Fail? <==> forall j :: 0 <= j < |students| ==> students[j].userId != Some(userId)
    ensures r.Fail? ==> r == Fail(404, STUDENT_NOT_FOUND)
    ensures r.Ok? ==>
      exists k :: 0 <= k < |students| && students[k].userId == Some(userId)
        && (forall j :: 0 <= j < k ==> students[j].userId != Some(userId))
        && r == Ok(PROFILE_OK, ProjectStudent(students[k], asset))
    ensures !r.Invalid?
  {
    match FirstIndex(students, OwnedBy(userId))
    case None => Fail(404, STUDENT_NOT_FOUND)
    case Some(k) => Ok(PROFILE_OK, ProjectStudent(students[k], asset))
  }

  // ---------------------------------------------------------------------- lesson views

  /** `['id' => $x->id ?? null, 'name' => $x->nom ?? 'غير محدد']`. */
  function ViewRef(x: Option<Related>): (r: RefView)
    ensures x.None? ==> r == RefView(None, UNSPECIFIED)
    ensures x.Some? ==> r.id == Some(x.value.id)
    ensures x.Some? && x.value.nom.Some? ==> r.name == x.value.nom.value
    ensures x.Some? && x.value.nom.None? ==> r.name == UNSPECIFIED
  {
    match x
    case None => RefView(None, UNSPECIFIED)
    case Some(rel) => RefView(Some(rel.id), if rel.nom.Some? then rel.nom.value else UNSPECIFIED)
  }

  function ViewHoraire(h: Horaire): HoraireView {
    HoraireView(h.id, h.heureDebut, h.heureFin, h.libelleFr, h.libelleAr)
  }

  /** The time slots in order, or `[]` when the relation is null. */
  function ViewHoraires(hs: Option<seq<Horaire>>): (r: seq<HoraireView>)
    ensures hs.None? ==> r == []
    ensures hs.Some? ==> |r| == |hs.value|
    ensures hs.Some? ==> forall i :: 0 <= i < |r| ==>
      r[i] == HoraireView(hs.value[i].id, hs.value[i].heureDebut, hs.value[i].heureFin,
                          hs.value[i].libelleFr, hs.value[i].libelleAr)
  {
    if hs.None? then []
    else seq(|hs.value|, i requires 0 <= i < |hs.value| => ViewHoraire(hs.value[i]))
  }

  function ViewLesson(l: Lesson): LessonView {
    LessonView(l.id, ViewRef(l.matiere), ViewRef(l.enseignant), ViewRef(l.trimestre), ViewHoraires(l.horaires))
  }

  // ------------------------------------------------------------------------- one day

  predicate HasLessons(lessons: seq<Lesson>, jourId: int) {
    exists i :: 0 <= i < |lessons| && lessons[i].jourId == jourId
  }

  /** The positions, from `k` on, of the rows `$emploisTemps->where('jour_id', $jourId)`
      keeps. */
  function MatchesFrom(lessons: seq<Lesson>, jourId: int, k: nat): (r: seq<nat>)
    ensures forall j :: 0 <= j < |r| ==> k <= r[j] < |lessons| && lessons[r[j]].jourId == jourId
    ensures forall j, j' :: 0 <= j < j' < |r| ==> r[j] < r[j']
    ensures forall i :: k <= i < |lessons| && lessons[i].jourId == jourId ==> i in r
    decreases |lessons| - k
  {
    if k >= |lessons| then []
    else
      var rest := MatchesFrom(lessons, jourId, k + 1);
      if lessons[k].jourId == jourId then [k] + rest else rest
  }

  /** The lessons of one day, `->where('jour_id', $jourId)->map(...)`: exactly the rows with
      that `jour_id`, as views, with their query positions, in query order. */
  function DaySlice(lessons: seq<Lesson>, jourId: int): (r: seq<(nat, LessonView)>)
    ensures forall j :: 0 <= j < |r| ==>
      r[j].0 < |lessons| && lessons[r[j].0].jourId == jourId && r[j].1 == ViewLesson(lessons[r[j].0])
    ensures forall j, j' :: 0 <= j < j' < |r| ==> r[j].0 < r[j'].0
    ensures forall i :: 0 <= i < |lessons| && lessons[i].jourId == jourId ==>
      exists j :: 0 <= j < |r| && r[j].0 == i
    ensures r != [] <==> HasLessons(lessons, jourId)
  {
    var idx := MatchesFrom(lessons, jourId, 0);
    var r := Tagged(lessons, idx);
    forall i | 0 <= i < |lessons| && lessons[i].jourId == jourId
      ensures exists j :: 0 <= j < |r| && r[j].0 == i
    {
      var j := IndexOf(idx, i);
      assert r[j].0 == i;
    }
    assert r != [] ==> lessons[r[0].0].jourId == jourId;
    r
  }

  /** The rows at positions `idx`, as views, each with its position. */
  function Tagged(lessons: seq<Lesson>, idx: seq<nat>): (r: seq<(nat, LessonView)>)
    requires forall j :: 0 <= j < |idx| ==> idx[j] < |lessons|
    ensures |r| == |idx|
    ensures forall j :: 0 <= j < |r| ==> r[j] == (idx[j], ViewLesson(lessons[idx[j]]))
  {
    seq(|idx|, j requires 0 <= j < |idx| => (idx[j], ViewLesson(lessons[idx[j]])))
  }

  /** The position of an element of a sequence. */
  function IndexOf(s: seq<nat>, x: nat): (j: nat)
    requires x in s
    ensures j < |s| && s[j] == x
  {
    if s[0] == x then 0 else 1 + IndexOf(s[1..], x)
  }

  // --------------------------------------------------------------- the keyed schedule

  /** `$schedule[$key]` read back: the first entry with that key. */
  function Lookup(entries: seq<Entry>, key: string): (r: Option<seq<(nat, LessonView)>>)
    ensures r.None? <==> forall i :: 0 <= i < |entries| ==> entries[i].day != key
    decreases |entries|
  {
    if entries == [] then None
    else if entries[0].day == key then Some(entries[0].lessons)
    else
      var r := Lookup(entries[1..], key);
      assert forall i :: 1 <= i < |entries| ==> entries[i] == entries[1..][i - 1];
      r
  }

  predicate UniqueKeys(entries: seq<Entry>) {
    forall i, j :: 0 <= i < j < |entries| ==> entries[i].day != entries[j].day
  }

  /** `$schedule[$key] = $value` on a PHP array: an existing key keeps its place (and gets the
      new value), a new key is appended. */
  function Put(entries: seq<Entry>, key: string, value: seq<(nat, LessonView)>): (r: seq<Entry>)
    ensures Lookup(entries, key).Some? ==>
      |r| == |entries| && forall i :: 0 <= i < |r| ==> r[i].day == entries[i].day
    ensures Lookup(entries, key).None? ==> r == entries + [Entry(key, value)]
    decreases |entries|
  {
    if entries == [] then [Entry(key, value)]
    else if entries[0].day == key then [Entry(key, value)] + entries[1..]
    else
      var rest := Put(entries[1..], key, value);
      assert Lookup(entries, key) == Lookup(entries[1..], key);
      assert entries == [entries[0]] + entries[1..];
      [entries[0]] + rest
  }

  /** After `Put`, the key holds the new value and every other key reads as before. */
  lemma {:induction false} PutLookup(entries: seq<Entry>, key: string, value: seq<(nat, LessonView)>, k: string)
    ensures Lookup(Put(entries, key, value), k) == if k == key then Some(value) else Lookup(entries, k)
    decreases |entries|
  {
    var r := Put(entries, key, value);
    if entries != [] {
      if entries[0].day == key {
        assert r[1..] == entries[1..];
      } else {
        assert r[1..] == Put(entries[1..], key, value);
        PutLookup(entries[1..], key, value, k);
      }
    }
  }

  lemma PutUniqueKeys(entries: seq<Entry>, key: string, value: seq<(nat, LessonView)>)
    requires UniqueKeys(entries)
    ensures UniqueKeys(Put(entries, key, value))
  {
  }

  /** The entry each visited day would store: its name and its lessons. */
  function DayEntries(days: seq<Jour>, lessons: seq<Lesson>): (r: seq<Entry>)
    ensures |r| == |days|
    ensures forall i :: 0 <= i < |days| ==> r[i] == Entry(days[i].nom, DaySlice(lessons, days[i].id))
  {
    seq(|days|, i requires 0 <= i < |days| => Entry(days[i].nom, DaySlice(lessons, days[i].id)))
  }

  /** Storing the entries in turn, skipping those without lessons (`count() > 0`). */
  function Fold(es: seq<Entry>): seq<Entry>
    decreases |es|
  {
    if es == [] then []
    else
      var prev := Fold(es[..|es| - 1]);
      var e := es[|es| - 1];
      if e.lessons != [] then Put(prev, e.day, e.lessons) else prev
  }

  /** One more step of the fold over a prefix. */
  lemma FoldPrefixStep(es: seq<Entry>, i: nat)
    requires i < |es|
    ensures Fold(es[..i + 1]) ==
      if es[i].lessons != [] then Put(Fold(es[..i]), es[i].day, es[i].lessons) else Fold(es[..i])
  {
    assert es[..i + 1][..i] == es[..i];
    assert es[..i + 1][i] == es[i];
  }

  lemma {:induction false} FoldUniqueKeys(es: seq<Entry>)
    ensures UniqueKeys(Fold(es))
    decreases |es|
  {
    if es != [] {
      var e := es[|es| - 1];
      FoldUniqueKeys(es[..|es| - 1]);
      if e.lessons != [] {
        PutUniqueKeys(Fold(es[..|es| - 1]), e.day, e.lessons);
      }
    }
  }

  /** Storing the last entry adds its name as a key when it has lessons, and nothing else. */
  lemma FoldLookupStep(es: seq<Entry>, name: string)
    requires es != []
    ensures Lookup(Fold(es), name).Some? <==>
      Lookup(Fold(es[..|es| - 1]), name).Some? || (es[|es| - 1].day == name && es[|es| - 1].lessons != [])
  {
    var e := es[|es| - 1];
    if e.lessons != [] {
      PutLookup(Fold(es[..|es| - 1]), e.day, e.lessons, name);
    }
  }

  /** Some entry of that name has lessons. */
  predicate HasLessonsNamed(es: seq<Entry>, name: string) {
    exists d :: 0 <= d < |es| && es[d].day == name && es[d].lessons != []
  }

  /** A day with lessons of a given name is either the last entry or one of the earlier ones. */
  lemma LastOrEarlier(es: seq<Entry>, name: string)
    requires es != []
    ensures HasLessonsNamed(es, name) <==>
      HasLessonsNamed(es[..|es| - 1], name) || (es[|es| - 1].day == name && es[|es| - 1].lessons != [])
  {
    var n := |es| - 1;
    var prefix := es[..n];
    if exists d :: 0 <= d < |es| && es[d].day == name && es[d].lessons != [] {
      var d :| 0 <= d < |es| && es[d].day == name && es[d].lessons != [];
      if d < n {
        assert prefix[d] == es[d];
      }
    }
    if exists d :: 0 <= d < n && prefix[d].day == name && prefix[d].lessons != [] {
      var d :| 0 <= d < n && prefix[d].day == name && prefix[d].lessons != [];
      assert es[d] == prefix[d];
    }
  }

  lemma {:induction false} FoldKeys(es: seq<Entry>, name: string)
    ensures Lookup(Fold(es), name).Some? <==>
      exists d :: 0 <= d < |es| && es[d].day == name && es[d].lessons != []
    decreases |es|
  {
    if es != [] {
      FoldKeys(es[..|es| - 1], name);
      FoldLookupStep(es, name);
      LastOrEarlier(es, name);
    }
  }

  lemma {:induction false} FoldValue(es: seq<Entry>, d: nat)
    requires d < |es| && es[d].lessons != []
    requires forall e :: d < e < |es| && es[e].day == es[d].day ==> es[e].lessons == []
    ensures Lookup(Fold(es), es[d].day) == Some(es[d].lessons)
    decreases |es|
  {
    var n := |es| - 1;
    var prefix := es[..n];
    var e := es[n];
    if e.lessons != [] {
      PutLookup(Fold(prefix), e.day, e.lessons, es[d].day);
    }
    if d < n {
      assert prefix[d] == es[d];
      assert forall e :: d < e < n ==> prefix[e] == es[e];
      FoldValue(prefix, d);
    }
  }

  function NonEmpty(): Entry -> bool {
    (e: Entry) => e.lessons != []
  }

  /** Storing one more entry with a new key appends it; one without lessons changes nothing. */
  lemma FoldSnoc(prefix: seq<Entry>, e: Entry)
    requires e.lessons != [] ==> Lookup(Fold(prefix), e.day).None?
    ensures Fold(prefix + [e]) == Fold(prefix) + Filter([e], NonEmpty())
  {
    assert (prefix + [e])[..|prefix|] == prefix;
    if e.lessons != [] {
      assert Filter([e], NonEmpty()) == [e];
    } else {
      assert Filter([e], NonEmpty()) == [];
    }
  }

  /** With distinct names, the last entry's name is not yet a key of the fold of the others. */
  lemma LastNameIsNew(es: seq<Entry>)
    requires es != [] && UniqueKeys(es)
    ensures UniqueKeys(es[..|es| - 1])
    ensures Lookup(Fold(es[..|es| - 1]), es[|es| - 1].day).None?
  {
    var n := |es| - 1;
    var prefix := es[..n];
    forall d | 0 <= d < n
      ensures prefix[d] == es[d] && prefix[d].day != es[n].day
    {
    }
    FoldKeys(prefix, es[n].day);
  }

  lemma {:induction false} FoldDistinct(es: seq<Entry>)
    requires UniqueKeys(es)
    ensures Fold(es) == Filter(es, NonEmpty())
    decreases |es|
  {
    if es != [] {
      var n := |es| - 1;
      var prefix, e := es[..n], es[n];
      assert es == prefix + [e];
      LastNameIsNew(es);
      FoldDistinct(prefix);
      FilterAppend(prefix, [e], NonEmpty());
      FoldSnoc(prefix, e);
    }
  }

  /** The `foreach` over the days: each day with lessons stores its slice under its name. */
  function Grouped(days: seq<Jour>, lessons: seq<Lesson>): (r: seq<Entry>)
    ensures UniqueKeys(r)
  {
    FoldUniqueKeys(DayEntries(days, lessons));
    Fold(DayEntries(days, lessons))
  }

  /** A name is a key exactly when some day of that name has at least one lesson. */
  lemma GroupedKeys(days: seq<Jour>, lessons: seq<Lesson>, name: string)
    ensures Lookup(Grouped(days, lessons), name).Some? <==>
      exists d :: 0 <= d < |days| && days[d].nom == name && HasLessons(lessons, days[d].id)
  {
    var es := DayEntries(days, lessons);
    FoldKeys(es, name);
    assert forall d :: 0 <= d < |days| ==> (es[d].lessons != [] <==> HasLessons(lessons, days[d].id));
  }

  /** The value under a name is the slice of the last day of that name that has lessons: a
      later day with the same name overwrites an earlier one. */
  lemma GroupedValue(days: seq<Jour>, lessons: seq<Lesson>, d: nat)
    requires d < |days| && HasLessons(lessons, days[d].id)
    requires forall e :: d < e < |days| && days[e].nom == days[d].nom ==> !HasLessons(lessons, days[e].id)
    ensures Lookup(Grouped(days, lessons), days[d].nom) == Some(DaySlice(lessons, days[d].id))
  {
    FoldValue(DayEntries(days, lessons), d);
  }

  /** With distinct day names nothing is overwritten: the entries are those of the days that
      have lessons, in the order the days are visited. */
  lemma GroupedInDayOrder(days: seq<Jour>, lessons: seq<Lesson>)
    requires forall i, j :: 0 <= i < j < |days| ==> days[i].nom != days[j].nom
    ensures Grouped(days, lessons) == Filter(DayEntries(days, lessons), NonEmpty())
  {
    var es := DayEntries(days, lessons);
    assert UniqueKeys(es);
    FoldDistinct(es);
  }

  // ------------------------------------------------------------------------ schedule

  function OrdreKey(): Jour -> int {
    (j: Jour) => j.ordre
  }

  function InClass(classId: int): Lesson -> bool {
    (l: Lesson) => l.classId == classId
  }

  /** `Jour::orderBy('ordre')->get()`. */
  function Days(jours: seq<Jour>): (r: seq<Jour>)
    ensures SortedByKey(r, OrdreKey())
    ensures multiset(r) == multiset(jours)
  {
    SortByKey(jours, OrdreKey())
  }

  /** `EmploiTemps::where('class_id', $classId)->get()`. */
  function ClassLessons(emplois: seq<Lesson>, classId: int): (r: seq<Lesson>)
    ensures forall l :: multiset(r)[l] == if l.classId == classId then multiset(emplois)[l] else 0
    ensures forall l :: l in r <==> l in emplois && l.classId == classId
    ensures IsSubsequence(r, emplois)
  {
    Filter(emplois, InClass(classId))
  }

  /** What `schedule` answers for the authenticated user `userId`: first the missing-student
      404, then the missing-class 404, then the schedule of the class grouped by day. */
  function ScheduleReply(userId: int, students: seq<Student>, emplois: seq<Lesson>, jours: seq<Jour>)
    : (r: Reply<ScheduleData>)
    ensures (forall j :: 0 <= j < |students| ==> students[j].userId != Some(userId)) ==>
      r == Fail(404, STUDENT_NOT_FOUND)
    ensures r.Ok? || r == Fail(404, NOT_ENROLLED) ==> FirstIndex(students, OwnedBy(userId)).Some?
    ensures FirstIndex(students, OwnedBy(userId)).Some? ==>
      var s := students[FirstIndex(students, OwnedBy(userId)).value];
      && (s.classe.None? <==> r == Fail(404, NOT_ENROLLED))
      && (s.classe.Some? <==> r.Ok?)
      && (r.Ok? ==>
           r == Ok(SCHEDULE_OK, ScheduleData(s.classe.value.id, s.classe.value.nom,
                                             Grouped(Days(jours), ClassLessons(emplois, s.classe.value.id)))))
    ensures !r.Invalid?
  {
    match FirstIndex(students, OwnedBy(userId))
    case None => Fail(404, STUDENT_NOT_FOUND)
    case Some(k) =>
      var s := students[k];
      if s.classe.None? then Fail(404, NOT_ENROLLED)
      else
        var c := s.classe.value;
        Ok(SCHEDULE_OK, ScheduleData(c.id, c.nom, Grouped(Days(jours), ClassLessons(emplois, c.id))))
  }

  /** The `foreach ($jours as $jour)` loop filling `$schedule`. */
  method BuildSchedule(days: seq<Jour>, lessons: seq<Lesson>) returns (schedule: seq<Entry>)
    ensures schedule == Grouped(days, lessons)
  {
    ghost var es := DayEntries(days, lessons);
    schedule := [];
    var i := 0;
    while i < |days|
      invariant 0 <= i <= |days|
      invariant schedule == Fold(es[..i])
    {
      var jour := days[i];
      var daySchedule := DaySlice(lessons, jour.id);
      assert es[i] == Entry(jour.nom, daySchedule);
      FoldPrefixStep(es, i);
      if |daySchedule| > 0 {
        schedule := Put(schedule, jour.nom, daySchedule);
      }
      i := i + 1;
    }
    assert es[..|days|] == es;
  }

  /** `schedule(Request $request)`. */
  method Schedule(userId: int, students: seq<Student>, emplois: seq<Lesson>, jours: seq<Jour>)
    returns (reply: Reply<ScheduleData>)
    ensures reply == ScheduleReply(userId, students, emplois, jours)
  {
    var found := FirstIndex(students, OwnedBy(userId));
    if found.None? {
      return Fail(404, STUDENT_NOT_FOUND);
    }
    var student := students[found.value];
    if student.classe.None? {
      return Fail(404, NOT_ENROLLED);
    }
    var classe := student.classe.value;
    var emploisTemps := ClassLessons(emplois, classe.id);
    var days := Days(jours);
    var schedule := BuildSchedule(days, emploisTemps);
    reply := Ok(SCHEDULE_OK, ScheduleData(classe.id, classe.nom, schedule));
  }
}
