/**
 * The statement building of the face database: the `UPDATE users`
 * statement of `update_user` with its field whitelist, the filtered
 * `SELECT` of `get_face_logs` with its parameter list, the conversion of
 * fetched rows into log entries, and the timestamp normalisation of
 * `FaceLogEntry`.
 *
 * Executing a statement is the oracle `execute` / `fetch`: it answers
 * with a row count or the fetched rows, or `None` when SQLite raises.
 */
module Database {
  import opened Wrappers
  import opened Strings

  /** A value as SQLite stores and returns it: one of its five storage classes. */
  datatype SqlValue = Null | Integer(i: int) | Real(r: real) | Text(s: string) | Blob(b: seq<Byte>)

  /** A statement and the values bound to its `?` placeholders, in order. */
  datatype Statement = Statement(sql: string, params: seq<SqlValue>)

  /** Every placeholder has exactly one bound value. */
  predicate PlaceholdersMatch(st: Statement) {
    CountChar(st.sql, '?') == |st.params|
  }

  /** Python's `float(v)` on a value read from SQLite; `None` where it raises. */
  function ToFloat(v: SqlValue): Option<real> {
    match v
    case Null => None
    case Integer(i) => Some(i as real)
    case Real(x) => Some(x)
    case Text(s) => ParseDecimal(s)
    case Blob(b) =>
      match DecodeAscii(b)
      case None => None
      case Some(s) => ParseDecimal(s)
  }

  /** Text and bytes holding the decimal digits of an integer convert to that integer. */
  lemma DecimalTextConverts(i: int)
    ensures ToFloat(Text(IntToString(i))) == Some(i as real)
    ensures forall b: seq<Byte> :: DecodeAscii(b) == Some(IntToString(i)) ==> ToFloat(Blob(b)) == Some(i as real)
  {
    IntToStringParses(i);
  }

  // ---------------------------------------------------------------------
  // FaceLogEntry
  // ---------------------------------------------------------------------

  datatype FaceLogEntry = FaceLogEntry(
    id: int, timestamp: SqlValue, cameraId: int, cameraName: string, faceName: string,
    age: Option<int>, gender: Option<string>, confidence: real,
    screenshotPath: Option<string>, userId: Option<int>)

  /**
   * `__post_init__`: a timestamp given as bytes or text becomes a float;
   * any other timestamp is kept as it is.  `None` is the `ValueError` when
   * the text does not convert.
   */
  function PostInit(e: FaceLogEntry): (r: Option<FaceLogEntry>)
    ensures (e.timestamp.Text? || e.timestamp.Blob?) ==>
      && (r.Some? <==> ToFloat(e.timestamp).Some?)
      && (r.Some? ==> r.value.timestamp == Real(ToFloat(e.timestamp).value))
    ensures !(e.timestamp.Text? || e.timestamp.Blob?) ==> r == Some(e)
    ensures r.Some? ==> r.value.(timestamp := e.timestamp) == e
  {
    if e.timestamp.Text? || e.timestamp.Blob? then
      match ToFloat(e.timestamp)
      case None => None
      case Some(t) => Some(e.(timestamp := Real(t)))
    else Some(e)
  }

  /** Normalising twice is normalising once: a normalised entry never holds text or bytes. */
  lemma PostInitIdempotent(e: FaceLogEntry)
    requires PostInit(e).Some?
    ensures PostInit(PostInit(e).value) == PostInit(e)
    ensures !PostInit(e).value.timestamp.Text? && !PostInit(e).value.timestamp.Blob?
  {
  }

  // ---------------------------------------------------------------------
  // update_user
  // ---------------------------------------------------------------------

  const AllowedFields: seq<string> := ["email", "role", "is_active"]

  /** Keyword arguments in the order they were passed. */
  type Kwargs = seq<(string, SqlValue)>

  /** Python never passes the same keyword twice. */
  predicate DistinctKeys(kwargs: Kwargs) {
    forall i, j :: 0 <= i < j < |kwargs| ==> kwargs[i].0 != kwargs[j].0
  }

  /** `{k: v for k, v in kwargs.items() if k in allowed_fields}`. */
  function Whitelisted(kwargs: Kwargs): (r: Kwargs)
    ensures |r| <= |kwargs|
    ensures forall p :: p in r <==> p in kwargs && p.0 in AllowedFields
  {
    if kwargs == [] then []
    else
      var last := kwargs[|kwargs| - 1];
      Whitelisted(kwargs[..|kwargs| - 1]) + (if last.0 in AllowedFields then [last] else [])
  }

  /** The whitelist keeps the order of the arguments: filtering commutes with concatenation. */
  lemma {:induction false} WhitelistedAppend(a: Kwargs, b: Kwargs)
    ensures Whitelisted(a + b) == Whitelisted(a) + Whitelisted(b)
    decreases |b|
  {
    if b == [] {
      assert a + b == a;
    } else {
      var b' := b[..|b| - 1];
      assert (a + b)[..|a + b| - 1] == a + b';
      WhitelistedAppend(a, b');
    }
  }

  function KeysOf(kwargs: Kwargs): (r: seq<string>)
    ensures |r| == |kwargs| && forall i :: 0 <= i < |kwargs| ==> r[i] == kwargs[i].0
  {
    seq(|kwargs|, i requires 0 <= i < |kwargs| => kwargs[i].0)
  }

  function ValuesOf(kwargs: Kwargs): (r: seq<SqlValue>)
    ensures |r| == |kwargs| && forall i :: 0 <= i < |kwargs| ==> r[i] == kwargs[i].1
  {
    seq(|kwargs|, i requires 0 <= i < |kwargs| => kwargs[i].1)
  }

  /** One `k = ?` assignment per key. */
  function Assignments(keys: seq<string>): (r: seq<string>)
    ensures |r| == |keys| && forall i :: 0 <= i < |keys| ==> r[i] == keys[i] + " = ?"
  {
    seq(|keys|, i requires 0 <= i < |keys| => keys[i] + " = ?")
  }

  /**
   * The statement `update_user` issues, or `None` when no whitelisted
   * field remains and it returns False without touching the database.
   */
  function UserUpdate(userId: int, kwargs: Kwargs): (r: Option<Statement>)
    requires DistinctKeys(kwargs)
    ensures r.None? <==> forall p :: p in kwargs ==> p.0 !in AllowedFields
    ensures r.Some? ==> r.value.params == ValuesOf(Whitelisted(kwargs)) + [Integer(userId)]
  {
    var updates := Whitelisted(kwargs);
    if updates == [] then None
    else
      var setClause := Join(", ", Assignments(KeysOf(updates)));
      Some(Statement("UPDATE users SET " + setClause + " WHERE id = ?", ValuesOf(updates) + [Integer(userId)]))
  }

  /**
   * The statement of `update_user` binds one value per placeholder: the
   * i-th assignment `k = ?` of its SET clause names the i-th kept argument,
   * whose value is the i-th bound value; every column is assigned at most
   * once; and the user id fills the final `id = ?`.
   */
  lemma UserUpdatePlaceholders(userId: int, kwargs: Kwargs)
    requires DistinctKeys(kwargs) && UserUpdate(userId, kwargs).Some?
    ensures var st := UserUpdate(userId, kwargs).value;
      var kept := Whitelisted(kwargs);
      var sets := Assignments(KeysOf(kept));
      && PlaceholdersMatch(st)
      && st.sql == "UPDATE users SET " + Join(", ", sets) + " WHERE id = ?"
      && |sets| == |kept| == |st.params| - 1
      && st.params[|st.params| - 1] == Integer(userId)
      && DistinctKeys(kept)
      && forall i :: 0 <= i < |kept| ==>
           kept[i].0 in AllowedFields && sets[i] == kept[i].0 + " = ?" && st.params[i] == kept[i].1
  {
    var kept := Whitelisted(kwargs);
    WhitelistedKeepsDistinct(kwargs);
    var keys := KeysOf(kept);
    forall i | 0 <= i < |kept|
      ensures kept[i].0 in AllowedFields
    {
      assert kept[i] in kept;
    }
    SetClausePlaceholders(keys);
    UpdateStatementPlaceholders(Join(", ", Assignments(keys)));
  }

  /** The whitelist keeps keys distinct: it only drops arguments, keeping the order of the rest. */
  lemma {:induction false} WhitelistedKeepsDistinct(kwargs: Kwargs)
    requires DistinctKeys(kwargs)
    ensures DistinctKeys(Whitelisted(kwargs))
    decreases |kwargs|
  {
    if kwargs != [] {
      var front := kwargs[..|kwargs| - 1];
      var last := kwargs[|kwargs| - 1];
      assert DistinctKeys(front) by {
        forall i, j | 0 <= i < j < |front| ensures front[i].0 != front[j].0 {
          assert front[i] == kwargs[i] && front[j] == kwargs[j];
        }
      }
      WhitelistedKeepsDistinct(front);
      var w := Whitelisted(front);
      if last.0 in AllowedFields {
        forall i | 0 <= i < |w| ensures w[i].0 != last.0 {
          assert w[i] in w;
          var j :| 0 <= j < |front| && front[j] == w[i];
          assert kwargs[j] == front[j];
        }
        assert Whitelisted(kwargs) == w + [last];
      }
    }
  }

  /** A SET clause over whitelisted keys has one placeholder per key. */
  lemma SetClausePlaceholders(keys: seq<string>)
    requires forall i :: 0 <= i < |keys| ==> keys[i] in AllowedFields
    ensures CountChar(Join(", ", Assignments(keys)), '?') == |keys|
  {
    var parts := Assignments(keys);
    forall i | 0 <= i < |parts|
      ensures CountChar(parts[i], '?') == 1
    {
      AllowedFieldsAvoidPlaceholder(keys[i]);
      assert parts[i] == (keys[i] + " = ") + "?";
      OnePlaceholder(keys[i] + " = ");
    }
    CommaPlaceholders();
    CountCharJoin(", ", parts, '?');
  }

  /** The `UPDATE` text around a SET clause adds the one placeholder of `id = ?`. */
  lemma UpdateStatementPlaceholders(setClause: string)
    ensures CountChar("UPDATE users SET " + setClause + " WHERE id = ?", '?') == CountChar(setClause, '?') + 1
  {
    UpdateHeadPlaceholders();
    UpdateTailPlaceholders();
    CountCharAppend("UPDATE users SET ", setClause, '?');
    CountCharAppend("UPDATE users SET " + setClause, " WHERE id = ?", '?');
  }

  lemma CommaPlaceholders()
    ensures CountChar(", ", '?') == 0
  {
    CountCharAbsent(", ", '?');
  }

  lemma UpdateHeadPlaceholders()
    ensures CountChar("UPDATE users SET ", '?') == 0
  {
    CountCharAbsent("UPDATE users SET ", '?');
  }

  lemma UpdateTailPlaceholders()
    ensures CountChar(" WHERE id = ?", '?') == 1
  {
    assert " WHERE id = ?" == " WHERE id = " + "?";
    OnePlaceholder(" WHERE id = ");
  }

  lemma AllowedFieldsAvoidPlaceholder(k: string)
    requires k in AllowedFields
    ensures '?' !in k
  {
  }

  /** A text that ends in its only `?`. */
  lemma OnePlaceholder(prefix: string)
    requires '?' !in prefix
    ensures CountChar(prefix + "?", '?') == 1
  {
    CountCharAbsent(prefix, '?');
    CountCharAppend(prefix, "?", '?');
  }

  /** `update_user`: False without a statement, False when SQLite raises, else whether a row changed. */
  function UpdateUser(userId: int, kwargs: Kwargs, execute: Statement -> Option<nat>): (r: bool)
    requires DistinctKeys(kwargs)
    ensures r <==> UserUpdate(userId, kwargs).Some? && execute(UserUpdate(userId, kwargs).value).GetOr(0) > 0
  {
    match UserUpdate(userId, kwargs)
    case None => false
    case Some(st) =>
      match execute(st)
      case None => false
      case Some(rowcount) => rowcount > 0
  }

  // ---------------------------------------------------------------------
  // get_face_logs: the query
  // ---------------------------------------------------------------------

  /** The optional filters of `get_face_logs`. */
  datatype LogFilters = LogFilters(
    cameraId: Option<int>, faceName: Option<string>, startTime: Option<real>, endTime: Option<real>)

  predicate NoFilter(f: LogFilters) {
    f.cameraId.None? && f.faceName.None? && f.startTime.None? && f.endTime.None?
  }

  /** The columns `get_face_logs` selects, in order. */
  const FaceLogColumns: seq<string> := [
    "id", "timestamp", "camera_id", "camera_name", "face_name",
    "age", "gender", "confidence", "screenshot_path", "user_id"]

  /** `SELECT c1, c2, ... FROM table`. */
  function SelectFrom(columns: seq<string>, table: string): string {
    "SELECT " + Join(", ", columns) + " FROM " + table
  }

  const FaceLogSelect: string := SelectFrom(FaceLogColumns, "face_logs")
  const OrderAndLimit: string := " ORDER BY timestamp DESC LIMIT ?"

  /** The four conditions `get_face_logs` can add. */
  datatype Condition = CameraIs | NameIs | StartsAt | EndsAt

  function ConditionText(c: Condition): string {
    match c
    case CameraIs => "camera_id = ?"
    case NameIs => "face_name = ?"
    case StartsAt => "timestamp >= ?"
    case EndsAt => "timestamp <= ?"
  }

  function Texts(cs: seq<Condition>): (r: seq<string>)
    ensures |r| == |cs| && forall i :: 0 <= i < |cs| ==> r[i] == ConditionText(cs[i])
  {
    seq(|cs|, i requires 0 <= i < |cs| => ConditionText(cs[i]))
  }

  function Piece<T>(present: bool, x: T): seq<T> {
    if present then [x] else []
  }

  /** The conditions, one per given filter, in the order camera, name, start, end. */
  function Conditions(f: LogFilters): seq<Condition> {
    Piece(f.cameraId.Some?, CameraIs)
    + Piece(f.faceName.Some?, NameIs)
    + Piece(f.startTime.Some?, StartsAt)
    + Piece(f.endTime.Some?, EndsAt)
  }

  /** The values bound to the conditions, in the same order. */
  function FilterParams(f: LogFilters): seq<SqlValue> {
    CameraParam(f) + NameParam(f) + StartParam(f) + EndParam(f)
  }

  function CameraParam(f: LogFilters): seq<SqlValue> {
    if f.cameraId.Some? then [Integer(f.cameraId.value)] else []
  }

  function NameParam(f: LogFilters): seq<SqlValue> {
    if f.faceName.Some? then [Text(f.faceName.value)] else []
  }

  function StartParam(f: LogFilters): seq<SqlValue> {
    if f.startTime.Some? then [Real(f.startTime.value)] else []
  }

  function EndParam(f: LogFilters): seq<SqlValue> {
    if f.endTime.Some? then [Real(f.endTime.value)] else []
  }

  function WhereClause(cs: seq<Condition>): string {
    if cs == [] then "" else " WHERE " + Join(" AND ", Texts(cs))
  }

  /** A `SELECT` text `head` extended by the filters' `WHERE` clause, the ordering and the limit. */
  function FilteredQuery(head: string, limit: int, f: LogFilters): Statement {
    Statement(head + WhereClause(Conditions(f)) + OrderAndLimit, FilterParams(f) + [Integer(limit)])
  }

  /** The statement `get_face_logs` runs. */
  function FaceLogQuery(limit: int, f: LogFilters): Statement {
    FilteredQuery(FaceLogSelect, limit, f)
  }

  /** The query construction of `get_face_logs` from the `SELECT` text `head`, by successive appends. */
  method BuildFaceLogQuery(head: string, limit: int, f: LogFilters) returns (query: string, params: seq<SqlValue>)
    ensures Statement(query, params) == FilteredQuery(head, limit, f)
  {
    query := head;
    params := [];
    var conditions: seq<Condition> := [];
    if f.cameraId.Some? {
      conditions := conditions + [CameraIs];
      params := params + [Integer(f.cameraId.value)];
    }
    ghost var c, p := Piece(f.cameraId.Some?, CameraIs), CameraParam(f);
    assert conditions == c && params == p;
    if f.faceName.Some? {
      conditions := conditions + [NameIs];
      params := params + [Text(f.faceName.value)];
    }
    c, p := c + Piece(f.faceName.Some?, NameIs), p + NameParam(f);
    assert conditions == c && params == p;
    if f.startTime.Some? {
      conditions := conditions + [StartsAt];
      params := params + [Real(f.startTime.value)];
    }
    c, p := c + Piece(f.startTime.Some?, StartsAt), p + StartParam(f);
    assert conditions == c && params == p;
    if f.endTime.Some? {
      conditions := conditions + [EndsAt];
      params := params + [Real(f.endTime.value)];
    }
    c, p := c + Piece(f.endTime.Some?, EndsAt), p + EndParam(f);
    assert conditions == c && params == p;
    assert conditions == Conditions(f) && params == FilterParams(f);
    if conditions != [] {
      query := query + " WHERE " + Join(" AND ", Texts(conditions));
      assert query == head + WhereClause(conditions);
    } else {
      assert query == head + WhereClause(conditions);
    }
    query := query + OrderAndLimit;
    params := params + [Integer(limit)];
  }

  /** The columns a condition tests. */
  datatype LogKey = LogKey(cameraId: int, faceName: string, timestamp: real)

  /** What a built condition means once its value is bound. */
  predicate Holds(c: Condition, v: SqlValue, k: LogKey) {
    match c
    case CameraIs => v == Integer(k.cameraId)
    case NameIs => v == Text(k.faceName)
    case StartsAt => v.Real? && k.timestamp >= v.r
    case EndsAt => v.Real? && k.timestamp <= v.r
  }

  /** The rows the filters ask for: the given camera and name, and a timestamp within both bounds, inclusive. */
  predicate Selected(f: LogFilters, k: LogKey) {
    && (f.cameraId.Some? ==> k.cameraId == f.cameraId.value)
    && (f.faceName.Some? ==> k.faceName == f.faceName.value)
    && (f.startTime.Some? ==> f.startTime.value <= k.timestamp)
    && (f.endTime.Some? ==> k.timestamp <= f.endTime.value)
  }

  /** Every bound condition holds for the row. */
  predicate AllHold(cs: seq<Condition>, ps: seq<SqlValue>, k: LogKey)
    requires |cs| == |ps|
  {
    forall i :: 0 <= i < |cs| ==> Holds(cs[i], ps[i], k)
  }

  lemma AllHoldAppend(c1: seq<Condition>, p1: seq<SqlValue>, c2: seq<Condition>, p2: seq<SqlValue>, k: LogKey)
    requires |c1| == |p1| && |c2| == |p2|
    ensures AllHold(c1 + c2, p1 + p2, k) <==> AllHold(c1, p1, k) && AllHold(c2, p2, k)
  {
    if AllHold(c1, p1, k) && AllHold(c2, p2, k) {
      forall i | 0 <= i < |c1 + c2|
        ensures Holds((c1 + c2)[i], (p1 + p2)[i], k)
      {
        if i >= |c1| {
          assert (c1 + c2)[i] == c2[i - |c1|] && (p1 + p2)[i] == p2[i - |c1|];
        }
      }
    }
    if AllHold(c1 + c2, p1 + p2, k) {
      forall i | 0 <= i < |c1|
        ensures Holds(c1[i], p1[i], k)
      {
        assert (c1 + c2)[i] == c1[i] && (p1 + p2)[i] == p1[i];
      }
      forall i | 0 <= i < |c2|
        ensures Holds(c2[i], p2[i], k)
      {
        assert (c1 + c2)[|c1| + i] == c2[i] && (p1 + p2)[|c1| + i] == p2[i];
      }
    }
  }

  lemma AllHoldOne(c: Condition, v: SqlValue, k: LogKey)
    ensures AllHold([c], [v], k) <==> Holds(c, v, k)
  {
    assert [c][0] == c && [v][0] == v;
  }

  /**
   * Each filter adds one condition and one value at the same position, and
   * together the bound conditions select exactly the rows the filters ask
   * for, including rows on either time bound.
   */
  lemma ConditionsMeanFilters(f: LogFilters, k: LogKey)
    ensures |Conditions(f)| == |FilterParams(f)|
    ensures Selected(f, k) <==> AllHold(Conditions(f), FilterParams(f), k)
  {
    var c1, p1 := Piece(f.cameraId.Some?, CameraIs), CameraParam(f);
    var c2, p2 := Piece(f.faceName.Some?, NameIs), NameParam(f);
    var c3, p3 := Piece(f.startTime.Some?, StartsAt), StartParam(f);
    var c4, p4 := Piece(f.endTime.Some?, EndsAt), EndParam(f);
    if f.cameraId.Some? { AllHoldOne(CameraIs, Integer(f.cameraId.value), k); }
    if f.faceName.Some? { AllHoldOne(NameIs, Text(f.faceName.value), k); }
    if f.startTime.Some? { AllHoldOne(StartsAt, Real(f.startTime.value), k); }
    if f.endTime.Some? { AllHoldOne(EndsAt, Real(f.endTime.value), k); }
    AllHoldAppend(c1, p1, c2, p2, k);
    AllHoldAppend(c1 + c2, p1 + p2, c3, p3, k);
    AllHoldAppend(c1 + c2 + c3, p1 + p2 + p3, c4, p4, k);
  }

  /** `WHERE` appears exactly when a filter is given, and there is one value per condition. */
  lemma WhereIffFilter(f: LogFilters)
    ensures |Conditions(f)| == |FilterParams(f)|
    ensures Conditions(f) == [] <==> NoFilter(f)
    ensures WhereClause(Conditions(f)) == "" <==> NoFilter(f)
  {
  }

  /** After a `SELECT` text without placeholders, the query binds one value per placeholder and `limit` last. */
  lemma FilteredQueryPlaceholders(head: string, limit: int, f: LogFilters)
    requires CountChar(head, '?') == 0
    ensures var st := FilteredQuery(head, limit, f);
      && PlaceholdersMatch(st)
      && st.params[|st.params| - 1] == Integer(limit)
  {
    var c := Conditions(f);
    WhereIffFilter(f);
    WhereClausePlaceholders(c);
    OrderAndLimitPlaceholder();
    CountCharAppend(head, WhereClause(c), '?');
    CountCharAppend(head + WhereClause(c), OrderAndLimit, '?');
  }

  /** The query `get_face_logs` runs binds one value per placeholder, `limit` last. */
  lemma FaceLogQueryPlaceholders(limit: int, f: LogFilters)
    ensures PlaceholdersMatch(FaceLogQuery(limit, f))
    ensures FaceLogQuery(limit, f).params[|FaceLogQuery(limit, f).params| - 1] == Integer(limit)
  {
    FaceLogSelectHasNoPlaceholder();
    FilteredQueryPlaceholders(FaceLogSelect, limit, f);
  }

  lemma FaceLogSelectHasNoPlaceholder()
    ensures CountChar(FaceLogSelect, '?') == 0
  {
    assert forall i :: 0 <= i < |FaceLogColumns| ==> '?' !in FaceLogColumns[i];
    SelectHasNoPlaceholder(FaceLogColumns, "face_logs");
  }

  lemma WhereClausePlaceholders(cs: seq<Condition>)
    ensures CountChar(WhereClause(cs), '?') == |cs|
  {
    if cs != [] {
      var texts := Texts(cs);
      forall i | 0 <= i < |texts|
        ensures CountChar(texts[i], '?') == 1
      {
        ConditionTextPlaceholder(cs[i]);
      }
      CountCharAbsent(" AND ", '?');
      CountCharJoin(" AND ", texts, '?');
      CountCharAbsent(" WHERE ", '?');
      CountCharAppend(" WHERE ", Join(" AND ", texts), '?');
    }
  }

  lemma OrderAndLimitPlaceholder()
    ensures CountChar(OrderAndLimit, '?') == 1
  {
    assert OrderAndLimit == " ORDER BY timestamp DESC LIMIT " + "?";
    OnePlaceholder(" ORDER BY timestamp DESC LIMIT ");
  }

  lemma ConditionTextPlaceholder(c: Condition)
    ensures CountChar(ConditionText(c), '?') == 1
  {
    match c
    case CameraIs =>
      assert ConditionText(c) == "camera_id = " + "?";
      OnePlaceholder("camera_id = ");
    case NameIs =>
      assert ConditionText(c) == "face_name = " + "?";
      OnePlaceholder("face_name = ");
    case StartsAt =>
      assert ConditionText(c) == "timestamp >= " + "?";
      OnePlaceholder("timestamp >= ");
    case EndsAt =>
      assert ConditionText(c) == "timestamp <= " + "?";
      OnePlaceholder("timestamp <= ");
  }

  lemma SelectHasNoPlaceholder(columns: seq<string>, table: string)
    requires '?' !in table
    requires forall i :: 0 <= i < |columns| ==> '?' !in columns[i]
    ensures CountChar(SelectFrom(columns, table), '?') == 0
  {
    JoinAvoids(", ", columns, '?');
    CountCharAbsent(SelectFrom(columns, table), '?');
  }

  // ---------------------------------------------------------------------
  // get_face_logs: the rows
  // ---------------------------------------------------------------------

  /** A fetched `face_logs` row. */
  datatype LogRow = LogRow(
    id: int, timestamp: SqlValue, cameraId: int, cameraName: string, faceName: string,
    age: Option<int>, gender: Option<string>, confidence: SqlValue,
    screenshotPath: Option<string>, userId: Option<int>)

  /** The entry for a row, or `None` when `float` raises on its timestamp or confidence. */
  function EntryOf(row: LogRow): (r: Option<FaceLogEntry>)
    ensures r.Some? <==> ToFloat(row.timestamp).Some? && ToFloat(row.confidence).Some?
    ensures r.Some? ==> PostInit(r.value) == r && r.value.id == row.id && r.value.faceName == row.faceName
  {
    match (ToFloat(row.timestamp), ToFloat(row.confidence))
    case (Some(t), Some(c)) =>
      Some(FaceLogEntry(row.id, Real(t), row.cameraId, row.cameraName, row.faceName,
                        row.age, row.gender, c, row.screenshotPath, row.userId))
    case _ => None
  }

  /** The entries of the rows that convert, in row order. */
  function Converted(rows: seq<LogRow>): seq<FaceLogEntry> {
    if rows == [] then []
    else
      var last := rows[|rows| - 1];
      Converted(rows[..|rows| - 1]) + (match EntryOf(last) case Some(e) => [e] case None => [])
  }

  /** Conversion is row by row: converting a concatenation concatenates the conversions. */
  lemma {:induction false} ConvertedAppend(a: seq<LogRow>, b: seq<LogRow>)
    ensures Converted(a + b) == Converted(a) + Converted(b)
    decreases |b|
  {
    if b == [] {
      assert a + b == a;
    } else {
      var b' := b[..|b| - 1];
      assert (a + b)[..|a + b| - 1] == a + b';
      ConvertedAppend(a, b');
    }
  }

  /** Conversion never adds rows, and every entry is the entry of one of the rows. */
  lemma {:induction false} ConvertedComesFromRows(rows: seq<LogRow>)
    ensures |Converted(rows)| <= |rows|
    ensures forall e :: e in Converted(rows) ==> exists i :: 0 <= i < |rows| && EntryOf(rows[i]) == Some(e)
    decreases |rows|
  {
    if rows != [] {
      var front := rows[..|rows| - 1];
      ConvertedComesFromRows(front);
      forall e | e in Converted(rows)
        ensures exists i :: 0 <= i < |rows| && EntryOf(rows[i]) == Some(e)
      {
        if e in Converted(front) {
          var i :| 0 <= i < |front| && EntryOf(front[i]) == Some(e);
          assert rows[i] == front[i];
        } else {
          assert EntryOf(rows[|rows| - 1]) == Some(e);
        }
      }
    }
  }

  /** Skipping is the only loss: when every row converts, the entries are the rows' entries one for one. */
  lemma {:induction false} ConvertedKeepsConvertible(rows: seq<LogRow>)
    requires forall i :: 0 <= i < |rows| ==> EntryOf(rows[i]).Some?
    ensures |Converted(rows)| == |rows|
    ensures forall i :: 0 <= i < |rows| ==> Some(Converted(rows)[i]) == EntryOf(rows[i])
    decreases |rows|
  {
    if rows != [] {
      var front := rows[..|rows| - 1];
      assert forall i :: 0 <= i < |front| ==> front[i] == rows[i];
      ConvertedKeepsConvertible(front);
      var e := EntryOf(rows[|rows| - 1]).value;
      assert Converted(rows) == Converted(front) + [e];
    }
  }

  /** The conversion loop: a row that fails is logged and skipped. */
  method ConvertRows(rows: seq<LogRow>) returns (entries: seq<FaceLogEntry>)
    ensures entries == Converted(rows)
  {
    entries := [];
    var i := 0;
    while i < |rows|
      invariant 0 <= i <= |rows|
      invariant entries == Converted(rows[..i])
    {
      assert rows[..i + 1][..i] == rows[..i];
      var entry := EntryOf(rows[i]);
      if entry.Some? {
        entries := entries + [entry.value];
      }
      i := i + 1;
    }
    assert rows[..i] == rows;
  }

  /**
   * `get_face_logs`: build the query, fetch its rows, convert those that
   * convert; any failure of the fetch yields no entries.
   */
  method GetFaceLogs(limit: int, f: LogFilters, fetch: Statement -> Option<seq<LogRow>>)
    returns (entries: seq<FaceLogEntry>)
    ensures fetch(FaceLogQuery(limit, f)).None? ==> entries == []
    ensures fetch(FaceLogQuery(limit, f)).Some? ==> entries == Converted(fetch(FaceLogQuery(limit, f)).value)
  {
    var query, params := BuildFaceLogQuery(FaceLogSelect, limit, f);
    var rows := fetch(Statement(query, params));
    if rows.None? {
      return [];
    }
    entries := ConvertRows(rows.value);
  }
}
