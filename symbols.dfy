// The formatter of `useSymbolsInfo`: the rows of `/v1/public/info` turned
// into a table keyed by symbol, each entry carrying the parts of its
// `TYPE_BASE_QUOTE` symbol.

module SymbolsInfo {
  import opened Optional

  // ---------------------------------------------------------------------------
  // String.prototype.split with a one-character separator
  // ---------------------------------------------------------------------------

  /** `s.split(sep)`: the pieces between the separators, in order; a string
      without the separator is one piece, and the empty string is one empty
      piece. */
  function Split(s: string, sep: char): (r: seq<string>)
    ensures |r| >= 1
    decreases |s|
  {
    if s == [] then [""]
    else
      var rest := Split(s[1..], sep);
      if s[0] == sep then [""] + rest
      else [[s[0]] + rest[0]] + rest[1..]
  }

  /** `parts.join(sep)`. */
  function Join(parts: seq<string>, sep: char): string
    requires |parts| >= 1
    decreases |parts|
  {
    if |parts| == 1 then parts[0] else parts[0] + [sep] + Join(parts[1..], sep)
  }

  /** Splitting loses nothing: joining the pieces back gives the string. */
  lemma {:induction false} JoinSplit(s: string, sep: char)
    ensures Join(Split(s, sep), sep) == s
    decreases |s|
  {
    if s != [] {
      var rest := Split(s[1..], sep);
      JoinSplit(s[1..], sep);
      if s[0] == sep {
        JoinEmptyHead(rest, sep);
      } else {
        JoinExtendHead(s[0], rest, sep);
      }
      assert s == [s[0]] + s[1..];
    }
  }

  lemma JoinEmptyHead(parts: seq<string>, sep: char)
    requires |parts| >= 1
    ensures Join([""] + parts, sep) == [sep] + Join(parts, sep)
  {
    assert ([""] + parts)[1..] == parts;
  }

  lemma JoinExtendHead(c: char, parts: seq<string>, sep: char)
    requires |parts| >= 1
    ensures Join([[c] + parts[0]] + parts[1..], sep) == [c] + Join(parts, sep)
  {
    var r := [[c] + parts[0]] + parts[1..];
    assert r[1..] == parts[1..];
    if |parts| > 1 {
      assert Join(r, sep) == [c] + parts[0] + [sep] + Join(parts[1..], sep);
    }
  }

  /** No piece contains the separator. */
  lemma {:induction false} SplitPieces(s: string, sep: char)
    ensures forall i :: 0 <= i < |Split(s, sep)| ==> sep !in Split(s, sep)[i]
    decreases |s|
  {
    if s != [] {
      SplitPieces(s[1..], sep);
      var rest := Split(s[1..], sep);
      var r := Split(s, sep);
      if s[0] != sep {
        assert r[0] == [s[0]] + rest[0];
        forall i | 1 <= i < |r| ensures sep !in r[i] {
          assert r[i] == rest[i];
        }
      } else {
        forall i | 1 <= i < |r| ensures sep !in r[i] {
          assert r[i] == rest[i - 1];
        }
      }
    }
  }

  /** A string without the separator is its only piece. */
  lemma {:induction false} SplitNone(t: string, sep: char)
    requires sep !in t
    ensures Split(t, sep) == [t]
    decreases |t|
  {
    if t != [] {
      SplitNone(t[1..], sep);
      assert [t[0]] + t[1..] == t;
    }
  }

  /** A first piece without the separator comes off the front. */
  lemma {:induction false} SplitFront(t: string, sep: char, rest: string)
    requires sep !in t
    ensures Split(t + [sep] + rest, sep) == [t] + Split(rest, sep)
    decreases |t|
  {
    var s := t + [sep] + rest;
    if t == [] {
      assert s == [sep] + rest;
      assert s[1..] == rest;
    } else {
      assert s[1..] == t[1..] + [sep] + rest;
      SplitFront(t[1..], sep, rest);
      assert [t[0]] + t[1..] == t;
    }
  }

  // ---------------------------------------------------------------------------
  // The table
  // ---------------------------------------------------------------------------

  /** One row of `/v1/public/info`: its symbol, and its other fields by name
      (the numeric fields rendered as text). */
  datatype SymbolRow = SymbolRow(symbol: string, fields: map<string, string>)

  /** `{...item, base, quote, type, name}`; `None` is a segment the split did
      not produce (`undefined`). */
  datatype SymbolEntry = SymbolEntry(
    row: SymbolRow,
    base: Option<string>,
    quote: Option<string>,
    kind: string,
    name: string)

  /** `arr[i]`, `undefined` past the end. */
  function Segment(parts: seq<string>, i: nat): Option<string> {
    if i < |parts| then Some(parts[i]) else None
  }

  /** A segment as a template literal renders it. */
  function Rendered(o: Option<string>): string {
    if o.Some? then o.value else "undefined"
  }

  /** The entry stored for one row. */
  function Entry(item: SymbolRow): SymbolEntry {
    var arr := Split(item.symbol, '_');
    SymbolEntry(item, Segment(arr, 1), Segment(arr, 2), arr[0], Rendered(Segment(arr, 1)) + "-" + arr[0])
  }

  /** The table after the rows `rows`, each later row overwriting an
      earlier one with the same symbol. */
  function TableOf(rows: seq<SymbolRow>): (t: map<string, SymbolEntry>)
    decreases |rows|
  {
    if rows == [] then map[]
    else
      var item := rows[|rows| - 1];
      TableOf(rows[..|rows| - 1])[item.symbol := Entry(item)]
  }

  /** What the formatter returns for `data?.rows`. */
  function Formatted(rows: Option<seq<SymbolRow>>): map<string, SymbolEntry> {
    if rows.None? || |rows.value| == 0 then map[] else TableOf(rows.value)
  }

  /** For a well-formed `TYPE_BASE_QUOTE` symbol the entry has the three
      parts and is named `BASE-TYPE`; every other field of the row is kept. */
  lemma EntryOfWellFormed(item: SymbolRow, kind: string, base: string, quote: string)
    requires '_' !in kind && '_' !in base && '_' !in quote
    requires item.symbol == kind + "_" + base + "_" + quote
    ensures Entry(item).kind == kind
    ensures Entry(item).base == Some(base) && Entry(item).quote == Some(quote)
    ensures Entry(item).name == base + "-" + kind
    ensures Entry(item).row == item
  {
    SplitThree(kind, base, quote);
  }

  lemma SplitThree(kind: string, base: string, quote: string)
    requires '_' !in kind && '_' !in base && '_' !in quote
    ensures Split(kind + "_" + base + "_" + quote, '_') == [kind, base, quote]
  {
    SplitNone(quote, '_');
    SplitFront(base, '_', quote);
    assert kind + "_" + base + "_" + quote == kind + ['_'] + (base + ['_'] + quote);
    SplitFront(kind, '_', base + ['_'] + quote);
  }

  /** A symbol without `_` is its own type, with no base and no quote; the
      name then reads `undefined-` followed by the symbol. */
  lemma EntryOfBare(item: SymbolRow)
    requires '_' !in item.symbol
    ensures Entry(item).kind == item.symbol
    ensures Entry(item).base == None && Entry(item).quote == None
    ensures Entry(item).name == "undefined-" + item.symbol
  {
    SplitNone(item.symbol, '_');
  }

  /** The type and base are the first two `_`-free pieces of the symbol,
      and joining the type, base and quote back gives the symbol when it has
      exactly three pieces. */
  lemma EntryParts(item: SymbolRow)
    ensures '_' !in Entry(item).kind
    ensures Entry(item).base.Some? ==> '_' !in Entry(item).base.value
    ensures Entry(item).quote.Some? ==> '_' !in Entry(item).quote.value
    ensures |Split(item.symbol, '_')| == 3 ==>
      Entry(item).base.Some? && Entry(item).quote.Some? &&
      item.symbol == Entry(item).kind + "_" + Entry(item).base.value + "_" + Entry(item).quote.value
  {
    var arr := Split(item.symbol, '_');
    SplitPieces(item.symbol, '_');
    JoinSplit(item.symbol, '_');
    if |arr| == 3 {
      assert arr[1..][1..] == [arr[2]];
      assert Join(arr[1..], '_') == arr[1] + ['_'] + arr[2];
      assert Join(arr, '_') == arr[0] + ['_'] + (arr[1] + ['_'] + arr[2]);
      assert arr[0] + ['_'] + (arr[1] + ['_'] + arr[2]) == arr[0] + "_" + arr[1] + "_" + arr[2];
    }
  }

  /** The table has exactly one key per distinct symbol of the rows. */
  lemma {:induction false} TableKeys(rows: seq<SymbolRow>)
    ensures TableOf(rows).Keys == set i | 0 <= i < |rows| :: rows[i].symbol
    decreases |rows|
  {
    if rows != [] {
      var p := rows[..|rows| - 1];
      TableKeys(p);
      var ks := set i | 0 <= i < |rows| :: rows[i].symbol;
      var kp := set i | 0 <= i < |p| :: p[i].symbol;
      forall k ensures k in ks <==> k in kp || k == rows[|rows| - 1].symbol {
        if k in ks {
          var i :| 0 <= i < |rows| && rows[i].symbol == k;
          if i < |p| {
            assert p[i] == rows[i];
          }
        }
        if k in kp {
          var i :| 0 <= i < |p| && p[i].symbol == k;
          assert rows[i] == p[i];
        }
      }
    }
  }

  /** Each key holds the entry of the last row with that symbol. */
  lemma {:induction false} TableLastWins(rows: seq<SymbolRow>, j: nat)
    requires j < |rows|
    requires forall k :: j < k < |rows| ==> rows[k].symbol != rows[j].symbol
    ensures rows[j].symbol in TableOf(rows)
    ensures TableOf(rows)[rows[j].symbol] == Entry(rows[j])
    decreases |rows|
  {
    if j < |rows| - 1 {
      var p := rows[..|rows| - 1];
      forall k | j < k < |p| ensures p[k].symbol != p[j].symbol {
        assert p[k] == rows[k];
      }
      TableLastWins(p, j);
    }
  }

  /** The formatter returns the empty table for missing or empty rows, and
      otherwise one entry per distinct symbol, built from the last row with
      that symbol. */
  lemma FormattedMeaning(rows: Option<seq<SymbolRow>>)
    ensures rows.None? ==> Formatted(rows) == map[]
    ensures rows.Some? ==> Formatted(rows).Keys == set i | 0 <= i < |rows.value| :: rows.value[i].symbol
    ensures rows.Some? ==> forall j :: (0 <= j < |rows.value| &&
      (forall k :: j < k < |rows.value| ==> rows.value[k].symbol != rows.value[j].symbol)) ==>
        Formatted(rows)[rows.value[j].symbol] == Entry(rows.value[j])
  {
    if rows.Some? {
      TableKeys(rows.value);
      forall j | 0 <= j < |rows.value| &&
        (forall k :: j < k < |rows.value| ==> rows.value[k].symbol != rows.value[j].symbol)
        ensures rows.value[j].symbol in Formatted(rows)
        ensures Formatted(rows)[rows.value[j].symbol] == Entry(rows.value[j])
      {
        TableLastWins(rows.value, j);
      }
    }
  }

  lemma TableStep(rows: seq<SymbolRow>, i: int)
    requires 0 <= i < |rows|
    ensures TableOf(rows[..i + 1]) == TableOf(rows[..i])[rows[i].symbol := Entry(rows[i])]
  {
    assert rows[..i + 1][..i] == rows[..i];
  }

  /** The formatter: one pass over the rows, assigning each entry into the
      table under its symbol. */
  method Format(rows: Option<seq<SymbolRow>>) returns (obj: map<string, SymbolEntry>)
    ensures obj == Formatted(rows)
  {
    if rows.None? || |rows.value| == 0 {
      return map[];
    }
    var data := rows.value;
    obj := map[];
    for index := 0 to |data|
      invariant obj == TableOf(data[..index])
    {
      var item := data[index];
      var arr := Split(item.symbol, '_');
      TableStep(data, index);
      obj := obj[item.symbol := SymbolEntry(item, Segment(arr, 1), Segment(arr, 2), arr[0],
                                            Rendered(Segment(arr, 1)) + "-" + arr[0])];
    }
    assert data[..|data|] == data;
  }
}
