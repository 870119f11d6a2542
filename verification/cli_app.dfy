/** The pure parts of the `modal app` commands (modal/cli/app.py): telling
    an app id from an app name, parsing a rollback version, and shaping the
    rows of the deployment history table. */
module CliApp {
  import opened Errors
  import opened Collections

  // ---------------------------------------------------------------------
  // App ids

  const APP_ID_PREFIX: string := "ap-"
  const APP_ID_SUFFIX_LENGTH: nat := 22

  /** `[a-zA-Z0-9]`. */
  predicate Alnum(c: char)
  {
    ('a' <= c <= 'z') || ('A' <= c <= 'Z') || ('0' <= c <= '9')
  }

  /** "ap-" and 22 ASCII letters or digits, and nothing else. */
  predicate AppIdBody(s: string)
  {
    |s| == |APP_ID_PREFIX| + APP_ID_SUFFIX_LENGTH && s[..3] == APP_ID_PREFIX
    && forall i | 3 <= i < |s| :: Alnum(s[i])
  }

  /** `re.match(r"^ap-[a-zA-Z0-9]{22}$", s)`: Python's `$` also matches just
      before a final newline. */
  predicate LooksLikeAppId(s: string)
  {
    AppIdBody(s) || (|s| > 0 && s[|s| - 1] == '\n' && AppIdBody(s[..|s| - 1]))
  }

  /** `get_app_id`: an id is used as it is; anything else is resolved as a
      name by `lookupByName` (the server lookup). */
  function GetAppId(identifier: string, lookupByName: string -> Result<string>): (r: Result<string>)
    ensures LooksLikeAppId(identifier) ==> r == Ok(identifier)
    ensures !LooksLikeAppId(identifier) ==> r == lookupByName(identifier)
  {
    if LooksLikeAppId(identifier) then Ok(identifier) else lookupByName(identifier)
  }

  /** An id never reaches the name lookup, whatever that would answer, and
      a string that cannot be an id always does. */
  lemma AppIdSkipsLookup(id: string, lookup1: string -> Result<string>, lookup2: string -> Result<string>)
    requires AppIdBody(id)
    ensures GetAppId(id, lookup1) == GetAppId(id, lookup2) == Ok(id)
    ensures GetAppId(id + "\n", lookup1) == Ok(id + "\n")
    ensures GetAppId(id + "x", lookup1) == lookup1(id + "x")
  {
    assert (id + "\n")[..|id|] == id;
    var longer := id + "x";
    assert !AppIdBody(longer);
    assert longer[|longer| - 1] == 'x';
  }

  // ---------------------------------------------------------------------
  // Rollback versions

  predicate Digit(c: char)
  {
    '0' <= c <= '9'
  }

  /** The value of a string of decimal digits. */
  function DigitsValue(s: string): (n: nat)
    requires forall i | 0 <= i < |s| :: Digit(s[i])
  {
    if |s| == 0 then 0 else DigitsValue(s[..|s| - 1]) * 10 + DigitOf(s[|s| - 1])
  }

  function DigitOf(c: char): (d: nat)
    requires Digit(c)
    ensures d < 10
  {
    c as int - '0' as int
  }

  /** `str(n)` for a natural number. */
  function Decimal(n: nat): (s: string)
    ensures |s| > 0 && forall i | 0 <= i < |s| :: Digit(s[i])
  {
    if n < 10 then [(n + '0' as int) as char]
    else Decimal(n / 10) + [((n % 10) + '0' as int) as char]
  }

  /** Reading back a printed number gives the number. */
  lemma {:induction false} DecimalValue(n: nat)
    ensures DigitsValue(Decimal(n)) == n
  {
    var s := Decimal(n);
    if n >= 10 {
      DecimalValue(n / 10);
      assert s[..|s| - 1] == Decimal(n / 10);
    }
  }

  /** The version number of `modal app rollback`: none means the previous
      deployment (-1); otherwise the digits after a leading "v" (the match
      is anchored only at the start); anything else is a usage error. */
  function RollbackVersion(version: string): (r: Result<int>)
    ensures version == "" ==> r == Ok(-1)
    ensures r.Err? ==> r.error == UsageError
    ensures version != "" ==>
      (r.Ok? <==> version[0] == 'v' && |version| > 1 && Digit(version[1]))
    ensures version != "" && r.Ok? ==>
      exists digits: string ::
        (StartsWith(version[1..], digits) && (forall i | 0 <= i < |digits| :: Digit(digits[i]))
         && (|digits| < |version| - 1 ==> !Digit(version[1 + |digits|]))
         && r.value == DigitsValue(digits))
  {
    if version == "" then Ok(-1)
    else if version[0] != 'v' then Err(UsageError)
    else
      var digits := TakeWhile(version[1..], Digit);
      if |digits| == 0 then Err(UsageError) else Ok(DigitsValue(digits) as int)
  }

  /** The versions the history shows parse back to their number, even with
      text after them. */
  lemma RollbackVersionOfLabel(n: nat, rest: string)
    requires rest == "" || !Digit(rest[0])
    ensures RollbackVersion("v" + Decimal(n) + rest) == Ok(n)
  {
    var v := "v" + Decimal(n) + rest;
    assert v[1..] == Decimal(n) + rest;
    if rest == "" {
      assert v[1..] == Decimal(n);
      TakeWhileAll(Decimal(n), Digit);
    } else {
      TakeWhileRun(Decimal(n), rest, Digit);
    }
    DecimalValue(n);
  }

  lemma {:induction false} TakeWhileAll<T>(s: seq<T>, p: T -> bool)
    requires forall i | 0 <= i < |s| :: p(s[i])
    ensures TakeWhile(s, p) == s
  {
    if |s| > 0 {
      TakeWhileAll(s[1..], p);
    }
  }

  // ---------------------------------------------------------------------
  // Deployment history

  /** One `AppDeploymentHistory` entry. */
  datatype Deployment = Deployment(
    version: int,
    deployedAt: int,
    clientVersion: string,
    deployedBy: string,
    commitHash: string,
    dirty: bool,
    tag: string)

  /** A table cell: text, or `None` for an empty cell. */
  type Cell = Option<string>

  /** A history row: the version it shows as "v<version>", then its other
      cells in column order. */
  datatype Row = Row(version: int, cells: seq<Cell>)

  const HISTORY_COLUMNS: seq<string> := ["Version", "Time deployed", "Client", "Deployed by", "Commit", "Tag"]

  const SHORT_HASH_LENGTH: nat := 7

  /** The commit cell: the first seven characters of the hash, starred when
      the tree was dirty; empty without a hash. */
  function CommitCell(hash: string, dirty: bool): (c: Cell)
    ensures c.None? <==> hash == ""
    ensures c.Some? ==>
      var shown := if |hash| < SHORT_HASH_LENGTH then |hash| else SHORT_HASH_LENGTH;
      |c.value| == shown + (if dirty then 1 else 0)
      && StartsWith(hash, c.value[..shown])
      && (dirty ==> c.value[shown] == '*')
  {
    if hash == "" then None
    else
      var short := hash[..if |hash| < SHORT_HASH_LENGTH then |hash| else SHORT_HASH_LENGTH];
      Some(short + (if dirty then "*" else ""))
  }

  /** The row of one deployment; `localize` renders the timestamp. */
  function HistoryRow(d: Deployment, localize: int -> string): (r: Row)
    ensures r.version == d.version && |r.cells| == |HISTORY_COLUMNS| - 1
    ensures r.cells[3] == CommitCell(d.commitHash, d.dirty)
    ensures r.cells[4] == (if d.tag == "" then None else Some(d.tag))
  {
    Row(d.version, [Some(localize(d.deployedAt)), Some(d.clientVersion), Some(d.deployedBy),
                    CommitCell(d.commitHash, d.dirty), if d.tag == "" then None else Some(d.tag)])
  }

  /** Whether any row has a tag. */
  predicate AnyTag(rows: seq<Row>)
  {
    exists k | 0 <= k < |rows| :: |rows[k].cells| > 0 && rows[k].cells[|rows[k].cells| - 1].Some?
  }

  function DropLastCell(rows: seq<Row>): (r: seq<Row>)
    requires forall k | 0 <= k < |rows| :: |rows[k].cells| > 0
    ensures |r| == |rows|
    ensures forall k | 0 <= k < |rows| ::
      r[k] == rows[k].(cells := rows[k].cells[..|rows[k].cells| - 1])
  {
    seq(|rows|, k requires 0 <= k < |rows| => rows[k].(cells := rows[k].cells[..|rows[k].cells| - 1]))
  }

  /** Rows in order of decreasing version. */
  predicate SortedDesc(rows: seq<Row>)
  {
    forall i, j | 0 <= i < j < |rows| :: rows[i].version >= rows[j].version
  }

  /** Puts `x` before the first row whose version is not larger, so rows of
      equal version keep their order. */
  function InsertDesc(x: Row, rows: seq<Row>): (r: seq<Row>)
    requires SortedDesc(rows)
    ensures SortedDesc(r)
    ensures |r| == |rows| + 1 && (r[0] == x || (|rows| > 0 && r[0] == rows[0]))
    ensures multiset(r) == multiset(rows) + multiset{x}
  {
    if |rows| == 0 then [x]
    else if rows[0].version <= x.version then
      SortedCons(x, rows);
      [x] + rows
    else
      var rest := InsertDesc(x, rows[1..]);
      SortedCons(rows[0], rest);
      assert multiset(rows) == multiset{rows[0]} + multiset(rows[1..]) by {
        assert rows == [rows[0]] + rows[1..];
      }
      [rows[0]] + rest
  }

  /** A row heads a sorted list when it is at least the old head. */
  lemma SortedCons(a: Row, s: seq<Row>)
    requires SortedDesc(s) && (|s| == 0 || a.version >= s[0].version)
    ensures SortedDesc([a] + s)
  {
    var t := [a] + s;
    forall i, j | 0 <= i < j < |t| ensures t[i].version >= t[j].version {
      if i == 0 && j > 1 {
        assert t[j] == s[j - 1] && s[0].version >= s[j - 1].version;
      }
    }
  }

  /** `sorted(rows, key=version, reverse=True)`. */
  function SortDesc(rows: seq<Row>): (r: seq<Row>)
    ensures SortedDesc(r)
    ensures multiset(r) == multiset(rows)
  {
    if |rows| == 0 then []
    else
      assert multiset(rows) == multiset{rows[0]} + multiset(rows[1..]) by {
        assert rows == [rows[0]] + rows[1..];
      }
      InsertDesc(rows[0], SortDesc(rows[1..]))
  }

  /** The history table: its columns, its rows, and whether the footnote
      about uncommitted changes is printed (outside JSON output). */
  datatype HistoryTable = HistoryTable(columns: seq<string>, rows: seq<Row>, dirtyNote: bool)

  /** The rows as built, one per deployment in answer order. */
  function BuiltRows(deployments: seq<Deployment>, localize: int -> string): (rows: seq<Row>)
    ensures |rows| == |deployments|
    ensures forall k | 0 <= k < |rows| :: rows[k] == HistoryRow(deployments[k], localize)
  {
    seq(|deployments|, k requires 0 <= k < |deployments| => HistoryRow(deployments[k], localize))
  }

  /** Some built row has a tag exactly when some deployment has one. */
  lemma AnyTagSpec(deployments: seq<Deployment>, localize: int -> string)
    ensures AnyTag(BuiltRows(deployments, localize)) <==> exists k | 0 <= k < |deployments| :: deployments[k].tag != ""
  {
    var built := BuiltRows(deployments, localize);
    assert forall k | 0 <= k < |deployments| :: built[k].cells[|built[k].cells| - 1] == built[k].cells[4];
  }

  /** The rows before sorting: the Tag cell goes when no row has one. */
  function ShapedRows(deployments: seq<Deployment>, localize: int -> string): (rows: seq<Row>)
    ensures |rows| == |deployments|
    ensures forall k | 0 <= k < |rows| ::
      |rows[k].cells| == (if AnyTag(BuiltRows(deployments, localize)) then 5 else 4)
    ensures forall k | 0 <= k < |rows| ::
      (rows[k].version == deployments[k].version
       && rows[k].cells[3] == CommitCell(deployments[k].commitHash, deployments[k].dirty))
  {
    var built := BuiltRows(deployments, localize);
    if AnyTag(built) then built else DropLastCell(built)
  }

  /** `modal app history`: one row per deployment, the Tag column dropped
      from the header and every row when no deployment has a tag, rows by
      decreasing version. */
  function History(deployments: seq<Deployment>, localize: int -> string, json: bool): (t: HistoryTable)
    ensures (exists k | 0 <= k < |deployments| :: deployments[k].tag != "") ==> t.columns == HISTORY_COLUMNS
    ensures (forall k | 0 <= k < |deployments| :: deployments[k].tag == "") ==>
      t.columns == HISTORY_COLUMNS[..|HISTORY_COLUMNS| - 1]
    ensures SortedDesc(t.rows) && |t.rows| == |deployments|
    ensures t.dirtyNote <==> !json && exists k | 0 <= k < |deployments| :: deployments[k].commitHash != "" && deployments[k].dirty
  {
    AnyTagSpec(deployments, localize);
    var anyTag := AnyTag(BuiltRows(deployments, localize));
    var rows := ShapedRows(deployments, localize);
    var columns := if anyTag then HISTORY_COLUMNS else HISTORY_COLUMNS[..|HISTORY_COLUMNS| - 1];
    var sorted := SortDesc(rows);
    MultisetCount(sorted, rows);
    HistoryTable(columns, sorted,
                 !json && exists k | 0 <= k < |deployments| :: deployments[k].commitHash != "" && deployments[k].dirty)
  }

  /** The table's rows are the shaped rows rearranged, and every row has
      one cell per column after the version. */
  lemma HistoryRows(deployments: seq<Deployment>, localize: int -> string, json: bool)
    ensures var t := History(deployments, localize, json);
      multiset(t.rows) == multiset(ShapedRows(deployments, localize))
      && forall k | 0 <= k < |t.rows| :: |t.rows[k].cells| + 1 == |t.columns|
  {
    var t := History(deployments, localize, json);
    var rows := ShapedRows(deployments, localize);
    AnyTagSpec(deployments, localize);
    SameCellCounts(rows, t.rows, |t.columns| - 1);
  }

  /** A rearrangement of rows that all have `n` cells has only rows of `n`
      cells. */
  lemma SameCellCounts(rows: seq<Row>, sorted: seq<Row>, n: int)
    requires multiset(sorted) == multiset(rows)
    requires forall k | 0 <= k < |rows| :: |rows[k].cells| == n
    ensures forall k | 0 <= k < |sorted| :: |sorted[k].cells| == n
  {
    forall k | 0 <= k < |sorted| ensures |sorted[k].cells| == n {
      assert sorted[k] in multiset(rows);
      var j :| 0 <= j < |rows| && rows[j] == sorted[k];
    }
  }

  lemma MultisetCount(a: seq<Row>, b: seq<Row>)
    requires multiset(a) == multiset(b)
    ensures |a| == |b|
  {
    assert |multiset(a)| == |a| && |multiset(b)| == |b|;
  }

  /** Every deployment appears in the table with its version and commit
      cell, whether or not the Tag column was dropped. */
  lemma HistoryKeepsDeployments(deployments: seq<Deployment>, localize: int -> string, json: bool, k: nat)
    requires k < |deployments|
    ensures exists j | 0 <= j < |History(deployments, localize, json).rows| ::
      History(deployments, localize, json).rows[j].version == deployments[k].version
      && |History(deployments, localize, json).rows[j].cells| > 3
      && History(deployments, localize, json).rows[j].cells[3] == CommitCell(deployments[k].commitHash, deployments[k].dirty)
  {
    var rows := ShapedRows(deployments, localize);
    var t := History(deployments, localize, json);
    HistoryRows(deployments, localize, json);
    assert rows[k] in multiset(t.rows);
    var j :| 0 <= j < |t.rows| && t.rows[j] == rows[k];
  }
}
