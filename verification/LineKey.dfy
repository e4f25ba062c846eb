/** The merge key of a cart line: sorted option ids and the trimmed note, as one string. */
module LineKey {
  // ---------------------------------------------------------------- the order of ids

  predicate Less(a: string, b: string) {
    b != [] && (a == [] || a[0] < b[0] || (a[0] == b[0] && Less(a[1..], b[1..])))
  }

  lemma {:induction false} Antisymmetric(a: string, b: string)
    ensures !(Less(a, b) && Less(b, a))
    ensures !Less(a, b) && !Less(b, a) ==> a == b
  {
    if a != [] && b != [] && a[0] == b[0] {
      Antisymmetric(a[1..], b[1..]);
      assert a == [a[0]] + a[1..] && b == [b[0]] + b[1..];
    }
  }

  lemma {:induction false} Transitive(a: string, b: string, c: string)
    requires !Less(b, a) && !Less(c, b)
    ensures !Less(c, a)
  {
    if a != [] && b != [] && c != [] && a[0] == b[0] == c[0] {
      Transitive(a[1..], b[1..], c[1..]);
    }
  }

  /** The order of strings: at the first place where they differ, or the shorter one first. */
  lemma {:induction false} LessIsLexicographic(a: string, b: string, k: nat)
    requires k <= |a| && k <= |b| && a[..k] == b[..k]
    requires k == |a| || k == |b| || a[k] != b[k]
    ensures Less(a, b) <==> (k < |b| && (k == |a| || a[k] < b[k]))
  {
    if k > 0 {
      assert a[0] == a[..k][0] == b[..k][0] == b[0];
      assert a[1..][..k - 1] == a[..k][1..] && b[1..][..k - 1] == b[..k][1..];
      LessIsLexicographic(a[1..], b[1..], k - 1);
    }
  }

  ghost predicate Ordered(s: seq<string>) {
    forall i, j :: 0 <= i < j < |s| ==> !Less(s[j], s[i])
  }

  function Insert(x: string, s: seq<string>): seq<string> {
    if s == [] || Less(x, s[0]) then [x] + s else [s[0]] + Insert(x, s[1..])
  }

  function Sorted(s: seq<string>): seq<string> {
    if s == [] then [] else Insert(s[0], Sorted(s[1..]))
  }

  lemma {:induction false} InsertOrders(x: string, s: seq<string>)
    requires Ordered(s)
    ensures Ordered(Insert(x, s)) && multiset(Insert(x, s)) == multiset(s) + multiset{x}
  {
    hide Less;
    if s == [] {
    } else if Less(x, s[0]) {
      Antisymmetric(x, s[0]);
      forall j | 0 <= j < |s| ensures !Less(s[j], x) {
        if j > 0 {
          Transitive(x, s[0], s[j]);
        }
      }
    } else {
      InsertOrders(x, s[1..]);
      assert s == [s[0]] + s[1..];
      forall y | y in Insert(x, s[1..]) ensures !Less(y, s[0]) {
        assert y in multiset(s[1..]) + multiset{x};
      }
    }
  }

  lemma {:induction false} SortedOrders(s: seq<string>)
    ensures Ordered(Sorted(s)) && multiset(Sorted(s)) == multiset(s)
  {
    if s != [] {
      SortedOrders(s[1..]);
      InsertOrders(s[0], Sorted(s[1..]));
      assert s == [s[0]] + s[1..];
    }
  }

  lemma {:induction false} OrderedUnique(a: seq<string>, b: seq<string>)
    requires Ordered(a) && Ordered(b) && multiset(a) == multiset(b)
    ensures a == b
  {
    assert |multiset(a)| == |a| && |multiset(b)| == |b|;
    if a != [] {
      assert a[0] in multiset(b) && b[0] in multiset(a);
      Antisymmetric(a[0], b[0]);
      assert a == [a[0]] + a[1..] && b == [b[0]] + b[1..];
      assert multiset(a[1..]) == multiset(a) - multiset{a[0]};
      OrderedUnique(a[1..], b[1..]);
    }
  }

  // ---------------------------------------------------------------- joining and reading back

  function Join(ids: seq<string>): string {
    if ids == [] then "" else if |ids| == 1 then ids[0] else ids[0] + "," + Join(ids[1..])
  }

  /** An id as the catalog issues them: not empty, without the separators. */
  predicate CleanId(id: string) {
    id != "" && ',' !in id && '#' !in id
  }

  ghost predicate Clean(ids: seq<string>) {
    forall id :: id in ids ==> CleanId(id)
  }

  /** The text before the first occurrence of a separator. */
  function Before(s: string, c: char): string {
    if s == [] || s[0] == c then [] else [s[0]] + Before(s[1..], c)
  }

  lemma {:induction false} BeforeIs(x: string, rest: string, c: char)
    requires c !in x && (rest == [] || rest[0] == c)
    ensures Before(x + rest, c) == x
  {
    if x == [] {
      assert x + rest == rest;
    } else {
      assert (x + rest)[0] == x[0] && (x + rest)[1..] == x[1..] + rest;
      BeforeIs(x[1..], rest, c);
    }
  }

  lemma {:induction false} JoinHasNoHash(ids: seq<string>)
    requires Clean(ids)
    ensures '#' !in Join(ids)
  {
    if |ids| > 1 {
      forall id | id in ids[1..] ensures CleanId(id) {
        assert id in ids;
      }
      JoinHasNoHash(ids[1..]);
      assert CleanId(ids[0]);
    } else if |ids| == 1 {
      assert CleanId(ids[0]);
    }
  }

  /** What follows the first id in a joined list. */
  function Tail(ids: seq<string>): string
    requires ids != []
  {
    if |ids| == 1 then "" else "," + Join(ids[1..])
  }

  lemma JoinNonEmpty(ids: seq<string>)
    requires Clean(ids)
    ensures Join(ids) == "" ==> ids == []
  {
    if ids != [] {
      assert CleanId(ids[0]);
    }
  }

  /** A joined list read back: its first id, and the rest of the list. */
  lemma JoinParts(ids: seq<string>)
    requires Clean(ids) && ids != []
    ensures Before(Join(ids), ',') == ids[0] && Clean(ids[1..])
    ensures |ids[0]| <= |Join(ids)| && Join(ids)[|ids[0]|..] == Tail(ids)
    ensures |ids| > 1 <==> Tail(ids) != ""
    ensures |ids| > 1 ==> Tail(ids)[1..] == Join(ids[1..])
  {
    assert CleanId(ids[0]) && Join(ids) == ids[0] + Tail(ids);
    BeforeIs(ids[0], Tail(ids), ',');
    forall id | id in ids[1..] ensures CleanId(id) {
      assert id in ids;
    }
  }

  lemma {:induction false} JoinInjective(a: seq<string>, b: seq<string>)
    requires Clean(a) && Clean(b) && Join(a) == Join(b)
    ensures a == b
  {
    if a == [] {
      JoinNonEmpty(b);
    } else if b == [] {
      JoinNonEmpty(a);
    } else {
      JoinParts(a);
      JoinParts(b);
      if |a| > 1 {
        JoinInjective(a[1..], b[1..]);
      }
      assert a == [a[0]] + a[1..] && b == [b[0]] + b[1..];
    }
  }

  // ---------------------------------------------------------------- the key

  predicate IsSpace(c: char) {
    c in "\t\n\U{0B}\U{0C}\r \U{A0}\U{1680}\U{2028}\U{2029}\U{202F}\U{205F}\U{3000}\U{FEFF}"
      || '\U{2000}' <= c <= '\U{200A}'
  }

  function TrimStart(s: string): string {
    if s != [] && IsSpace(s[0]) then TrimStart(s[1..]) else s
  }

  function TrimEnd(s: string): string {
    if s != [] && IsSpace(s[|s| - 1]) then TrimEnd(s[..|s| - 1]) else s
  }

  function Trim(s: string): string {
    TrimEnd(TrimStart(s))
  }

  lemma {:induction false} TrimEndKeepsStart(s: string)
    requires s == [] || !IsSpace(s[0])
    ensures TrimEnd(s) == [] || !IsSpace(TrimEnd(s)[0])
    ensures TrimEnd(TrimEnd(s)) == TrimEnd(s)
  {
    if s != [] && IsSpace(s[|s| - 1]) {
      TrimEndKeepsStart(s[..|s| - 1]);
    }
  }

  lemma {:induction false} TrimStartTrims(s: string)
    ensures TrimStart(s) == [] || !IsSpace(TrimStart(s)[0])
  {
    if s != [] && IsSpace(s[0]) {
      TrimStartTrims(s[1..]);
    }
  }

  /** The white space that ECMAScript trims, by code point. */
  predicate IsBlank(c: char) {
    c as int in {9, 10, 11, 12, 13, 32, 160, 5760, 8232, 8233, 8239, 8287, 12288, 65279} || 8192 <= c as int <= 8202
  }

  lemma BlanksAreSpaces(c: char)
    ensures IsSpace(c) <==> IsBlank(c)
  {
  }

  lemma {:induction false} TrimStartDrops(s: string) returns (left: string)
    ensures s == left + TrimStart(s) && forall i :: 0 <= i < |left| ==> IsBlank(left[i])
    ensures TrimStart(s) == "" || !IsBlank(TrimStart(s)[0])
  {
    hide IsSpace;
    hide IsBlank;
    if s != [] {
      BlanksAreSpaces(s[0]);
    }
    if s != [] && IsSpace(s[0]) {
      var rest := TrimStartDrops(s[1..]);
      left := [s[0]] + rest;
      assert s == [s[0]] + (rest + TrimStart(s[1..])) == left + TrimStart(s);
    } else {
      left := "";
    }
  }

  lemma {:induction false} TrimEndDrops(s: string) returns (right: string)
    ensures s == TrimEnd(s) + right && forall i :: 0 <= i < |right| ==> IsBlank(right[i])
    ensures TrimEnd(s) == "" || (TrimEnd(s)[0] == s[0] && !IsBlank(TrimEnd(s)[|TrimEnd(s)| - 1]))
  {
    hide IsSpace;
    hide IsBlank;
    if s != [] {
      BlanksAreSpaces(s[|s| - 1]);
    }
    if s != [] && IsSpace(s[|s| - 1]) {
      var rest := TrimEndDrops(s[..|s| - 1]);
      right := rest + [s[|s| - 1]];
      assert s == (TrimEnd(s[..|s| - 1]) + rest) + [s[|s| - 1]] == TrimEnd(s) + right;
    } else {
      right := "";
    }
  }

  /** Trimming takes white space off both ends, all of it, and nothing else. */
  lemma TrimIsExact(s: string) returns (left: string, right: string)
    ensures s == left + Trim(s) + right
    ensures forall i :: 0 <= i < |left| ==> IsBlank(left[i])
    ensures forall i :: 0 <= i < |right| ==> IsBlank(right[i])
    ensures Trim(s) != "" ==> !IsBlank(Trim(s)[0]) && !IsBlank(Trim(s)[|Trim(s)| - 1])
  {
    hide IsBlank;
    hide TrimStart;
    hide TrimEnd;
    left := TrimStartDrops(s);
    right := TrimEndDrops(TrimStart(s));
    assert left + (Trim(s) + right) == left + Trim(s) + right;
  }

  lemma TrimTwice(s: string)
    ensures Trim(Trim(s)) == Trim(s)
  {
    TrimStartTrims(s);
    TrimEndKeepsStart(TrimStart(s));
  }

  function Key(ids: seq<string>, note: string): string {
    Join(Sorted(ids)) + "#" + Trim(note)
  }

  /** Two keys are equal exactly for the same options, in whatever order, and the same note apart from outer blanks. */
  lemma KeyIdentifies(ids: seq<string>, note: string, ids': seq<string>, note': string)
    requires Clean(ids) && Clean(ids')
    ensures Key(ids, note) == Key(ids', note') <==> multiset(ids) == multiset(ids') && Trim(note) == Trim(note')
  {
    SortedOrders(ids);
    SortedOrders(ids');
    if multiset(ids) == multiset(ids') {
      OrderedUnique(Sorted(ids), Sorted(ids'));
    }
    if Key(ids, note) == Key(ids', note') {
      SortedIsClean(ids);
      SortedIsClean(ids');
      JoinHasNoHash(Sorted(ids));
      JoinHasNoHash(Sorted(ids'));
      PartsAgree(Join(Sorted(ids)), Trim(note), Join(Sorted(ids')), Trim(note'));
      JoinInjective(Sorted(ids), Sorted(ids'));
    }
  }

  lemma PartsAgree(x: string, n: string, y: string, m: string)
    requires '#' !in x && '#' !in y && x + "#" + n == y + "#" + m
    ensures x == y && n == m
  {
    var (s, t) := ("#" + n, "#" + m);
    assert x + "#" + n == x + s && y + "#" + m == y + t;
    BeforeIs(x, s, '#');
    BeforeIs(y, t, '#');
    assert s == (x + s)[|x|..] && t == (y + t)[|y|..];
    assert n == s[1..] && m == t[1..];
  }

  lemma SortedIsClean(ids: seq<string>)
    requires Clean(ids)
    ensures Clean(Sorted(ids))
  {
    SortedOrders(ids);
    forall id | id in Sorted(ids) ensures CleanId(id) {
      assert id in multiset(Sorted(ids));
      assert id in multiset(ids);
    }
  }
}
