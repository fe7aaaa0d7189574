// src/lwip/compat_translate.py: the table that turns option constants of the socket
// module into those of lwIP, for arbitrary contents of the two modules.
module CompatTranslate {
  import opened Basics

  // A Python module: `dir` lists its names in order, `values` gives them. The socket
  // module is only ever asked for single names.
  datatype Module = Module(dir: seq<string>, values: map<string, int>)

  predicate IsModule(m: Module) {
    && (forall i, j :: 0 <= i < j < |m.dir| ==> m.dir[i] != m.dir[j])
    && (forall i :: 0 <= i < |m.dir| ==> m.dir[i] in m.values)
  }

  datatype TranslateEntry = TranslateEntry(name: string, lwipValue: int, socketValue: int)

  datatype Predicate = StartsWith(prefix: string) | Equals(name: string) {
    predicate Accepts(s: string) {
      match this
      case StartsWith(p) => p <= s
      case Equals(n) => s == n
    }
  }

  // One call of the level generator: the level's name and which options belong to it.
  datatype Row = Row(level: string, options: Predicate)

  const ROWS: seq<Row> := [
    Row("SOL_SOCKET", StartsWith("SO_")),
    Row("IPPROTO_IP", StartsWith("IP_")),
    Row("IPPROTO_TCP", StartsWith("TCP_")),
    Row("IPPROTO_IPV6", StartsWith("IPV6_")),
    Row("IPPROTO_UDPLITE", StartsWith("UDPLITE_")),
    Row("IPPROTO_RAW", Equals("IPV6_CHECKSUM"))
  ]

  // A name both modules define.
  predicate IsShared(defs: Module, socket: map<string, int>, name: string) {
    name in defs.values && name in socket
  }

  function EntryOf(defs: Module, socket: map<string, int>, name: string): TranslateEntry
    requires IsShared(defs, socket, name)
  {
    TranslateEntry(name, defs.values[name], socket[name])
  }

  // _yield_socket_lwip_matching_entries: names in `dir` order, those the socket module
  // lacks left out.
  function MatchingEntries(p: Predicate, defs: Module, socket: map<string, int>,
                           names: seq<string>): seq<TranslateEntry> {
    if names == [] then []
    else
      var front, last := names[..|names|-1], names[|names|-1];
      MatchingEntries(p, defs, socket, front)
      + if p.Accepts(last) && IsShared(defs, socket, last) then [EntryOf(defs, socket, last)] else []
  }

  // {e.socket_value: e for e in entries}: a later entry replaces an earlier one.
  function OptionTable(entries: seq<TranslateEntry>): map<int, TranslateEntry> {
    if entries == [] then map[]
    else
      var last := entries[|entries|-1];
      OptionTable(entries[..|entries|-1])[last.socketValue := last]
  }

  type LevelTable = map<int, (TranslateEntry, map<int, TranslateEntry>)>

  // dict(itertools.chain(...)): a row whose level is missing in a module yields nothing.
  function BuildTable(rows: seq<Row>, defs: Module, socket: map<string, int>): LevelTable {
    if rows == [] then map[]
    else
      var front, last := rows[..|rows|-1], rows[|rows|-1];
      var t := BuildTable(front, defs, socket);
      if IsShared(defs, socket, last.level) then
        t[socket[last.level] := (EntryOf(defs, socket, last.level),
                                 OptionTable(MatchingEntries(last.options, defs, socket, defs.dir)))]
      else t
  }

  datatype TranslateError = NoLevel | NoOption   // both ValueError

  function TranslateSockopt(table: LevelTable, level: int, optname: int): Result<(int, int), TranslateError> {
    if level !in table then Err(NoLevel)
    else if optname !in table[level].1 then Err(NoOption)
    else Ok((table[level].0.lwipValue, table[level].1[optname].lwipValue))
  }

  // ---- what the table means -----------------------------------------------

  // Name j of `names` is an option of the row, known to both modules, with this value.
  predicate Offers(p: Predicate, defs: Module, socket: map<string, int>, names: seq<string>, j: int, optname: int) {
    0 <= j < |names| && p.Accepts(names[j]) && IsShared(defs, socket, names[j]) && socket[names[j]] == optname
  }

  // ... and no later name is.
  ghost predicate IsLastName(p: Predicate, defs: Module, socket: map<string, int>, names: seq<string>, j: int,
                             optname: int) {
    Offers(p, defs, socket, names, j, optname)
    && forall k :: j < k < |names| ==> !Offers(p, defs, socket, names, k, optname)
  }

  predicate HasLevel(rows: seq<Row>, defs: Module, socket: map<string, int>, i: int, level: int) {
    0 <= i < |rows| && IsShared(defs, socket, rows[i].level) && socket[rows[i].level] == level
  }

  // Row i is the one kept for this level.
  ghost predicate IsLastRow(rows: seq<Row>, defs: Module, socket: map<string, int>, i: int, level: int) {
    HasLevel(rows, defs, socket, i, level)
    && forall k :: i < k < |rows| ==> !HasLevel(rows, defs, socket, k, level)
  }

  lemma {:induction false} LastNameWins(p: Predicate, defs: Module, socket: map<string, int>, names: seq<string>,
                                        j: int, optname: int)
    requires IsLastName(p, defs, socket, names, j, optname)
    ensures var t := OptionTable(MatchingEntries(p, defs, socket, names));
            optname in t && t[optname] == EntryOf(defs, socket, names[j])
  {
    var n := |names| - 1;
    OneMoreName(p, defs, socket, names, optname);
    if j < n {
      assert !Offers(p, defs, socket, names, n, optname);
      FrontOffers(p, defs, socket, names, j, optname);
      forall k | j < k < n ensures !Offers(p, defs, socket, names[..n], k, optname) {
        FrontOffers(p, defs, socket, names, k, optname);
      }
      LastNameWins(p, defs, socket, names[..n], j, optname);
    }
  }

  lemma {:induction false} AbsentName(p: Predicate, defs: Module, socket: map<string, int>, names: seq<string>,
                                      optname: int)
    requires forall j :: !Offers(p, defs, socket, names, j, optname)
    ensures optname !in OptionTable(MatchingEntries(p, defs, socket, names))
  {
    if names != [] {
      OneMoreName(p, defs, socket, names, optname);
      var front := names[..|names|-1];
      forall j ensures !Offers(p, defs, socket, front, j, optname) {
        FrontOffers(p, defs, socket, names, j, optname);
        assert !Offers(p, defs, socket, names, j, optname);
      }
      assert !Offers(p, defs, socket, names, |names| - 1, optname);
      AbsentName(p, defs, socket, front, optname);
    }
  }

  lemma FrontOffers(p: Predicate, defs: Module, socket: map<string, int>, names: seq<string>, j: int, optname: int)
    requires names != []
    ensures Offers(p, defs, socket, names[..|names|-1], j, optname) <==>
            j < |names| - 1 && Offers(p, defs, socket, names, j, optname)
  {}

  lemma OneMoreName(p: Predicate, defs: Module, socket: map<string, int>, names: seq<string>, optname: int)
    requires names != []
    ensures var n := |names| - 1;
            var t := OptionTable(MatchingEntries(p, defs, socket, names[..n]));
            var t' := OptionTable(MatchingEntries(p, defs, socket, names));
            if Offers(p, defs, socket, names, n, optname)
            then optname in t' && t'[optname] == EntryOf(defs, socket, names[n])
            else (optname in t' <==> optname in t) && (optname in t ==> t'[optname] == t[optname])
  {
    var n := |names| - 1;
    var es, all := MatchingEntries(p, defs, socket, names[..n]), MatchingEntries(p, defs, socket, names);
    if p.Accepts(names[n]) && IsShared(defs, socket, names[n]) {
      assert all == es + [EntryOf(defs, socket, names[n])];
      assert all[..|all|-1] == es;
    } else {
      assert all == es;
    }
  }

  lemma {:induction false} LastRowWins(rows: seq<Row>, defs: Module, socket: map<string, int>, i: int, level: int)
    requires IsLastRow(rows, defs, socket, i, level)
    ensures var t := BuildTable(rows, defs, socket);
            level in t && t[level] == (EntryOf(defs, socket, rows[i].level),
                                       OptionTable(MatchingEntries(rows[i].options, defs, socket, defs.dir)))
  {
    var n := |rows| - 1;
    if i < n {
      assert !HasLevel(rows, defs, socket, n, level);
      FrontLevels(rows, defs, socket, i, level);
      forall k | i < k < n ensures !HasLevel(rows[..n], defs, socket, k, level) {
        FrontLevels(rows, defs, socket, k, level);
      }
      LastRowWins(rows[..n], defs, socket, i, level);
    }
  }

  lemma {:induction false} AbsentLevel(rows: seq<Row>, defs: Module, socket: map<string, int>, level: int)
    requires forall i :: !HasLevel(rows, defs, socket, i, level)
    ensures level !in BuildTable(rows, defs, socket)
  {
    if rows != [] {
      var front := rows[..|rows|-1];
      forall i ensures !HasLevel(front, defs, socket, i, level) {
        FrontLevels(rows, defs, socket, i, level);
        assert !HasLevel(rows, defs, socket, i, level);
      }
      assert !HasLevel(rows, defs, socket, |rows| - 1, level);
      AbsentLevel(front, defs, socket, level);
    }
  }

  lemma FrontLevels(rows: seq<Row>, defs: Module, socket: map<string, int>, i: int, level: int)
    requires rows != []
    ensures HasLevel(rows[..|rows|-1], defs, socket, i, level) <==>
            i < |rows| - 1 && HasLevel(rows, defs, socket, i, level)
  {}

  lemma {:induction false} SomeLastName(p: Predicate, defs: Module, socket: map<string, int>, names: seq<string>,
                                        j: int, optname: int)
    returns (last: int)
    requires Offers(p, defs, socket, names, j, optname)
    ensures j <= last && IsLastName(p, defs, socket, names, last, optname)
    decreases |names| - j
  {
    if k :| j < k < |names| && Offers(p, defs, socket, names, k, optname) {
      last := SomeLastName(p, defs, socket, names, k, optname);
    } else {
      last := j;
    }
  }

  // translate_sockopt, for any contents of the two modules: it answers exactly the
  // pairs whose level is that of a kept row and whose option is the value of some name
  // of that row known to both modules. The answer is the lwIP value of the level and
  // of the last such name in `dir` order.
  lemma TranslationMeaning(rows: seq<Row>, defs: Module, socket: map<string, int>, i: int, level: int, optname: int)
    requires IsLastRow(rows, defs, socket, i, level)
    ensures var r := TranslateSockopt(BuildTable(rows, defs, socket), level, optname);
            && (r.Ok? <==> exists j :: Offers(rows[i].options, defs, socket, defs.dir, j, optname))
            && (forall j :: IsLastName(rows[i].options, defs, socket, defs.dir, j, optname) ==>
                  r == Ok((defs.values[rows[i].level], defs.values[defs.dir[j]])))
  {
    LastRowWins(rows, defs, socket, i, level);
    var p := rows[i].options;
    if j :| Offers(p, defs, socket, defs.dir, j, optname) {
      var last := SomeLastName(p, defs, socket, defs.dir, j, optname);
      LastNameWins(p, defs, socket, defs.dir, last, optname);
    } else {
      AbsentName(p, defs, socket, defs.dir, optname);
    }
    forall j | IsLastName(p, defs, socket, defs.dir, j, optname)
      ensures TranslateSockopt(BuildTable(rows, defs, socket), level, optname) ==
              Ok((defs.values[rows[i].level], defs.values[defs.dir[j]]))
    {
      LastNameWins(p, defs, socket, defs.dir, j, optname);
    }
  }

  lemma UnknownLevel(rows: seq<Row>, defs: Module, socket: map<string, int>, level: int, optname: int)
    requires forall i :: !HasLevel(rows, defs, socket, i, level)
    ensures TranslateSockopt(BuildTable(rows, defs, socket), level, optname) == Err(NoLevel)
  {
    AbsentLevel(rows, defs, socket, level);
  }

  // A shared option comes out as its own lwIP value exactly when the last name with
  // its socket value has that lwIP value.
  lemma OwnValueIff(rows: seq<Row>, defs: Module, socket: map<string, int>, i: int, j: int, last: int)
    requires 0 <= i < |rows| && IsShared(defs, socket, rows[i].level)
    requires IsLastRow(rows, defs, socket, i, socket[rows[i].level])
    requires 0 <= j < |defs.dir| && IsShared(defs, socket, defs.dir[j]) && rows[i].options.Accepts(defs.dir[j])
    requires IsLastName(rows[i].options, defs, socket, defs.dir, last, socket[defs.dir[j]])
    ensures TranslateSockopt(BuildTable(rows, defs, socket), socket[rows[i].level], socket[defs.dir[j]])
            == Ok((defs.values[rows[i].level], defs.values[defs.dir[j]]))
            <==> defs.values[defs.dir[last]] == defs.values[defs.dir[j]]
  {
    TranslationMeaning(rows, defs, socket, i, socket[rows[i].level], socket[defs.dir[j]]);
  }

  // When the socket values of a row's shared options are distinct, each of them comes
  // out as its own lwIP value.
  lemma DistinctValuesTranslate(rows: seq<Row>, defs: Module, socket: map<string, int>, i: int, j: int)
    requires IsModule(defs) && 0 <= i < |rows| && IsShared(defs, socket, rows[i].level)
    requires IsLastRow(rows, defs, socket, i, socket[rows[i].level])
    requires 0 <= j < |defs.dir| && IsShared(defs, socket, defs.dir[j]) && rows[i].options.Accepts(defs.dir[j])
    requires forall a, b, v :: (Offers(rows[i].options, defs, socket, defs.dir, a, v)
                                && Offers(rows[i].options, defs, socket, defs.dir, b, v)) ==> a == b
    ensures TranslateSockopt(BuildTable(rows, defs, socket), socket[rows[i].level], socket[defs.dir[j]])
            == Ok((defs.values[rows[i].level], defs.values[defs.dir[j]]))
  {
    var v := socket[defs.dir[j]];
    assert Offers(rows[i].options, defs, socket, defs.dir, j, v);
    var last := SomeLastName(rows[i].options, defs, socket, defs.dir, j, v);
    assert last == j;
    TranslationMeaning(rows, defs, socket, i, socket[rows[i].level], v);
  }

  // ---- the six rows -------------------------------------------------------

  function Table(defs: Module, socket: map<string, int>): LevelTable {
    BuildTable(ROWS, defs, socket)
  }

  // Only IPV6_CHECKSUM belongs to two levels, IPPROTO_IPV6 and IPPROTO_RAW.
  lemma RowsOverlapIff(name: string, i: int, j: int)
    requires 0 <= i < j < |ROWS|
    ensures ROWS[i].options.Accepts(name) && ROWS[j].options.Accepts(name) <==>
              i == 3 && j == 5 && name == "IPV6_CHECKSUM"
  {
    if i == 3 && j == 5 {
      assert "IPV6_CHECKSUM"[..5] == "IPV6_";
    } else {
      var k := if i == 1 && (j == 3 || j == 5) then 2 else 0;
      assert Text(ROWS[i].options)[k] != Text(ROWS[j].options)[k];
      BeginsWith(ROWS[i].options, name, k);
      BeginsWith(ROWS[j].options, name, k);
    }
  }

  function Text(p: Predicate): string {
    match p
    case StartsWith(s) => s
    case Equals(s) => s
  }

  lemma BeginsWith(p: Predicate, name: string, k: nat)
    requires k < |Text(p)|
    ensures p.Accepts(name) ==> k < |name| && name[k] == Text(p)[k]
  {}

  // The table as it is: when no later level of the six has the same socket value, a
  // level answers for exactly the options of its row that both modules define, with the
  // lwIP value of the last of them in `dir` order that has the given socket value.
  lemma SixLevels(defs: Module, socket: map<string, int>, i: int, optname: int)
    requires 0 <= i < |ROWS| && IsShared(defs, socket, ROWS[i].level)
    requires forall k :: i < k < |ROWS| && IsShared(defs, socket, ROWS[k].level) ==>
              socket[ROWS[k].level] != socket[ROWS[i].level]
    ensures TranslateSockopt(Table(defs, socket), socket[ROWS[i].level], optname).Ok?
            <==> exists j :: Offers(ROWS[i].options, defs, socket, defs.dir, j, optname)
    ensures forall j :: IsLastName(ROWS[i].options, defs, socket, defs.dir, j, optname) ==>
              TranslateSockopt(Table(defs, socket), socket[ROWS[i].level], optname)
              == Ok((defs.values[ROWS[i].level], defs.values[defs.dir[j]]))
  {
    assert IsLastRow(ROWS, defs, socket, i, socket[ROWS[i].level]);
    TranslationMeaning(ROWS, defs, socket, i, socket[ROWS[i].level], optname);
  }

  // ---- the table, name by name --------------------------------------------

  // The six level names and what the names of their options begin with; the last level
  // has one option only.
  predicate IsLevel(level: string, prefix: string) {
    || (level == "SOL_SOCKET" && prefix == "SO_")
    || (level == "IPPROTO_IP" && prefix == "IP_")
    || (level == "IPPROTO_TCP" && prefix == "TCP_")
    || (level == "IPPROTO_IPV6" && prefix == "IPV6_")
    || (level == "IPPROTO_UDPLITE" && prefix == "UDPLITE_")
    || (level == "IPPROTO_RAW" && prefix == "IPV6_CHECKSUM")
  }

  const LEVELS: set<string> :=
    {"SOL_SOCKET", "IPPROTO_IP", "IPPROTO_TCP", "IPPROTO_IPV6", "IPPROTO_UDPLITE", "IPPROTO_RAW"}

  // A name that belongs to the level.
  predicate BelongsTo(level: string, prefix: string, name: string) {
    if level == "IPPROTO_RAW" then name == "IPV6_CHECKSUM" else prefix <= name
  }

  // Name j of `dir` is an option of the level that both modules define, of this value.
  predicate IsOption(level: string, prefix: string, defs: Module, socket: map<string, int>, j: int, optname: int) {
    && 0 <= j < |defs.dir| && BelongsTo(level, prefix, defs.dir[j])
    && defs.dir[j] in defs.values && defs.dir[j] in socket && socket[defs.dir[j]] == optname
  }

  function RowOf(level: string): (i: int) {
    if level == "SOL_SOCKET" then 0 else if level == "IPPROTO_IP" then 1 else if level == "IPPROTO_TCP" then 2
    else if level == "IPPROTO_IPV6" then 3 else if level == "IPPROTO_UDPLITE" then 4 else 5
  }

  lemma RowIs(level: string, prefix: string, name: string)
    requires IsLevel(level, prefix)
    ensures 0 <= RowOf(level) < |ROWS| && ROWS[RowOf(level)].level == level
    ensures ROWS[RowOf(level)].options.Accepts(name) <==> BelongsTo(level, prefix, name)
  {}

  lemma RowNames(i: int)
    requires 0 <= i < |ROWS|
    ensures |ROWS| == 6 && ROWS[i].level in LEVELS && RowOf(ROWS[i].level) == i
  {}

  // translate_sockopt over the real table, for any contents of the two modules: at the
  // socket value of a level that no other of the six shares, exactly the options of that
  // level are answered, with the lwIP value of the level and of the last such name; any
  // other option is refused.
  lemma RealTable(defs: Module, socket: map<string, int>, level: string, prefix: string, optname: int)
    requires IsLevel(level, prefix) && level in defs.values && level in socket
    requires forall l :: l in LEVELS && l != level && l in defs.values && l in socket ==> socket[l] != socket[level]
    ensures var r := TranslateSockopt(Table(defs, socket), socket[level], optname);
            && (r.Ok? <==> exists j :: IsOption(level, prefix, defs, socket, j, optname))
            && (r.Err? ==> r == Err(NoOption))
            && forall j :: IsOption(level, prefix, defs, socket, j, optname)
                           && (forall k :: j < k < |defs.dir| ==>
                                 !IsOption(level, prefix, defs, socket, k, optname)) ==>
                 r == Ok((defs.values[level], defs.values[defs.dir[j]]))
  {
    var i := RowOf(level);
    RowIs(level, prefix, "");
    forall k | i < k < |ROWS| && IsShared(defs, socket, ROWS[k].level)
      ensures socket[ROWS[k].level] != socket[ROWS[i].level]
    {
      RowNames(k);
      RowNames(i);
    }
    forall j ensures Offers(ROWS[i].options, defs, socket, defs.dir, j, optname)
                     <==> IsOption(level, prefix, defs, socket, j, optname)
    {
      if 0 <= j < |defs.dir| { RowIs(level, prefix, defs.dir[j]); }
    }
    SixLevels(defs, socket, i, optname);
    LastRowWins(ROWS, defs, socket, i, socket[level]);
    if j :| IsOption(level, prefix, defs, socket, j, optname) {
      assert Offers(ROWS[i].options, defs, socket, defs.dir, j, optname);
    }
    forall j | IsOption(level, prefix, defs, socket, j, optname)
               && (forall k :: j < k < |defs.dir| ==> !IsOption(level, prefix, defs, socket, k, optname))
      ensures IsLastName(ROWS[i].options, defs, socket, defs.dir, j, optname)
    {
      forall k | j < k < |defs.dir| ensures !Offers(ROWS[i].options, defs, socket, defs.dir, k, optname) {
        assert !IsOption(level, prefix, defs, socket, k, optname);
      }
    }
  }

  // A value that is none of the six levels' is refused.
  lemma RealTableRefuses(defs: Module, socket: map<string, int>, level: int, optname: int)
    requires forall l :: l in LEVELS && l in defs.values && l in socket ==> socket[l] != level
    ensures TranslateSockopt(Table(defs, socket), level, optname) == Err(NoLevel)
  {
    forall i ensures !HasLevel(ROWS, defs, socket, i, level) {
      if 0 <= i < |ROWS| { RowNames(i); }
    }
    UnknownLevel(ROWS, defs, socket, level, optname);
  }
}
