/** ViewUser: the registered-users panel. `handleSort` orders a copy of the
    list by name or by semester; `exportToPDF` lays out a title, the user
    count, a header row and one row per user. */
module ViewUser {
  import StableSort
  import opened JsText
  import opened UsersSlice

  datatype SortField = ByName | BySemester

  /** `localeCompare` as an abstract collation: strings compare as their
      keys under `collate`. */
  function SortKeyOf(field: SortField, collate: string -> real): User -> real
  {
    (u: User) => if field == ByName then collate(u.name) else collate(u.semester)
  }

  /** `handleSort`: sort a copy of the list with the comparator for the
      chosen field. */
  function HandleSort(users: seq<User>, field: SortField, collate: string -> real): seq<User>
  {
    StableSort.Sort(users, SortKeyOf(field, collate))
  }

  /** The result holds exactly the users of the list and is ordered by the
      chosen field. */
  lemma HandleSortMeaning(users: seq<User>, field: SortField, collate: string -> real)
    ensures var r := HandleSort(users, field, collate);
      multiset(r) == multiset(users) &&
      (field == ByName ==> forall i, j :: 0 <= i < j < |r| ==> collate(r[i].name) <= collate(r[j].name)) &&
      (field == BySemester ==> forall i, j :: 0 <= i < j < |r| ==> collate(r[i].semester) <= collate(r[j].semester))
  {
    var r := HandleSort(users, field, collate);
    StableSort.SortPermutes(users, SortKeyOf(field, collate));
    StableSort.SortSorted(users, SortKeyOf(field, collate));
    assert forall i, j :: 0 <= i < j < |r| ==> SortKeyOf(field, collate)(r[i]) <= SortKeyOf(field, collate)(r[j]);
  }

  /** A `doc.text(text, x, y)` call. */
  datatype Draw = Draw(text: string, x: int, y: int)

  const Title := "AIMS Code Quest 2.0 - Registered Users"
  const Headers: seq<string> := ["SN", "Name", "Email", "Semester"]
  const ColumnWidth: seq<int> := [20, 80, 90, 50]

  function Sum(s: seq<int>): int
  {
    if s == [] then 0 else Sum(s[..|s| - 1]) + s[|s| - 1]
  }

  /** Where header `i` starts: 20 plus the widths of the columns before. */
  function ColumnX(i: nat): int
    requires i <= |ColumnWidth|
  {
    20 + Sum(ColumnWidth[..i])
  }

  /** The header calls made for the first `n` headers. */
  function HeaderDraws(n: nat): seq<Draw>
    requires n <= |Headers|
  {
    seq(n, i requires 0 <= i < n => Draw(Headers[i], ColumnX(i), 40))
  }

  /** The four calls for user `i`, drawn at height `50 + 10 * i`. */
  function UserRow(u: User, i: nat): seq<Draw>
  {
    var rowY := 50 + i * 10;
    [Draw(Decimal(i + 1), 20, rowY), Draw(u.name, 20 + ColumnWidth[0], rowY),
     Draw(u.email, 20 + ColumnWidth[0] + ColumnWidth[1], rowY),
     Draw(u.semester, 20 + ColumnWidth[0] + ColumnWidth[1] + ColumnWidth[2], rowY)]
  }

  function RowDraws(users: seq<User>, n: nat): (r: seq<Draw>)
    requires n <= |users|
    ensures |r| == 4 * n
  {
    if n == 0 then [] else RowDraws(users, n - 1) + UserRow(users[n - 1], n - 1)
  }

  function Preamble(count: nat): seq<Draw>
  {
    [Draw(Title, 20, 20), Draw("Total Users: " + Decimal(count), 20, 30)]
  }

  /** `exportToPDF`, as the list of text calls it makes in order. */
  method ExportToPdf(users: seq<User>) returns (doc: seq<Draw>)
    ensures doc == Preamble(|users|) + HeaderDraws(|Headers|) + RowDraws(users, |users|)
  {
    doc := Preamble(|users|);
    var y := 40;
    var index := 0;
    while index < |Headers|
      invariant 0 <= index <= |Headers|
      invariant doc == Preamble(|users|) + HeaderDraws(index)
    {
      doc := doc + [Draw(Headers[index], 20 + Sum(ColumnWidth[..index]), y)];
      index := index + 1;
    }
    y := y + 10;
    index := 0;
    while index < |users|
      invariant 0 <= index <= |users|
      invariant doc == Preamble(|users|) + HeaderDraws(|Headers|) + RowDraws(users, index)
    {
      var rowY := y + index * 10;
      var user := users[index];
      doc := doc + [Draw(Decimal(index + 1), 20, rowY)];
      doc := doc + [Draw(user.name, 20 + ColumnWidth[0], rowY)];
      doc := doc + [Draw(user.email, 20 + ColumnWidth[0] + ColumnWidth[1], rowY)];
      doc := doc + [Draw(user.semester, 20 + ColumnWidth[0] + ColumnWidth[1] + ColumnWidth[2], rowY)];
      index := index + 1;
    }
  }

  /** The headers start at x = 20, 40, 120 and 210, each column's start is
      the previous one plus its width. */
  lemma HeaderPositions()
    ensures forall i :: 0 <= i < |Headers| ==> HeaderDraws(|Headers|)[i].y == 40
    ensures [ColumnX(0), ColumnX(1), ColumnX(2), ColumnX(3)] == [20, 40, 120, 210]
    ensures forall i :: 0 < i < |Headers| ==> ColumnX(i) == ColumnX(i - 1) + ColumnWidth[i - 1]
  {
    assert ColumnWidth[..0] == [];
    assert ColumnWidth[..1][..0] == [];
    assert ColumnWidth[..2][..1] == ColumnWidth[..1];
    assert ColumnWidth[..3][..2] == ColumnWidth[..2];
  }

  lemma {:induction false} RowAt(users: seq<User>, n: nat, i: nat, k: nat)
    requires n <= |users| && i < n && k < 4
    ensures RowDraws(users, n)[4 * i + k] == UserRow(users[i], i)[k]
    decreases n
  {
    var p := RowDraws(users, n - 1);
    assert RowDraws(users, n) == p + UserRow(users[n - 1], n - 1);
    if i < n - 1 {
      RowAt(users, n - 1, i, k);
      assert 4 * i + k < |p|;
    } else {
      assert |p| == 4 * i;
    }
  }

  lemma UserRowColumns(u: User, i: nat)
    ensures UserRow(u, i) == [Draw(Decimal(i + 1), ColumnX(0), 50 + 10 * i),
                              Draw(u.name, ColumnX(1), 50 + 10 * i),
                              Draw(u.email, ColumnX(2), 50 + 10 * i),
                              Draw(u.semester, ColumnX(3), 50 + 10 * i)]
  {
    HeaderPositions();
  }

  /** Row `i` takes the calls `4 i` to `4 i + 3`: its serial number, which
      reads `i + 1`, then the name, the email and the semester, all at
      height `50 + 10 i` and under the matching header. */
  lemma RowLayout(users: seq<User>, n: nat, i: nat)
    requires n <= |users| && i < n
    ensures var r := RowDraws(users, n);
      var y := 50 + 10 * i;
      r[4 * i] == Draw(Decimal(i + 1), ColumnX(0), y) &&
      r[4 * i + 1] == Draw(users[i].name, ColumnX(1), y) &&
      r[4 * i + 2] == Draw(users[i].email, ColumnX(2), y) &&
      r[4 * i + 3] == Draw(users[i].semester, ColumnX(3), y) &&
      Parse(r[4 * i].text) == i + 1
  {
    var r := RowDraws(users, n);
    var row := UserRow(users[i], i);
    UserRowColumns(users[i], i);
    RowAt(users, n, i, 0);
    RowAt(users, n, i, 1);
    RowAt(users, n, i, 2);
    RowAt(users, n, i, 3);
    assert r[4 * i] == row[0] && r[4 * i + 1] == row[1];
    assert r[4 * i + 2] == row[2] && r[4 * i + 3] == row[3];
    ParseDecimal(i + 1);
  }

  /** Every user row sits below the header row, later users lower down. */
  lemma RowsDescend(users: seq<User>, i: nat, j: nat)
    requires i < j < |users|
    ensures 40 < RowDraws(users, |users|)[4 * i].y < RowDraws(users, |users|)[4 * j].y
  {
    RowLayout(users, |users|, i);
    RowLayout(users, |users|, j);
  }
}
