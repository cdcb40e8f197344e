/** Turning a catalog node id into a path: the walk up the parents fills a
    fixed buffer from its end, then the first component is split off as the
    volume. The buffer size comes from a system header that is not part of this
    model, so it is a parameter. */
module CnidPath {

  /** What a lookup of an id answers. */
  datatype Entry = Entry(parent: int, name: string)

  type Catalog = map<int, Entry>

  datatype Result =
    | Printed(volume: string, path: string)
    | LookupFailed
    | OutOfBounds    // the program would write before its buffer, or read past it

  // ----- the walk -----

  datatype Filled = Text(s: string) | NoEntry | Underflow

  /** What the walk from `id` puts below index `len` of the buffer. */
  function Fill(cat: Catalog, id: int, len: int): Filled
    decreases if len < 0 then 0 else len
  {
    if id !in cat then NoEntry
    else if cat[id].parent == id || len <= 0 then Text("")
    else if len - 1 - |cat[id].name| < 0 then Underflow
    else Above(Fill(cat, cat[id].parent, len - 1 - |cat[id].name|), "/" + cat[id].name)
  }

  function Above(f: Filled, below: string): Filled {
    if f.Text? then Text(f.s + below) else f
  }

  /** The C string at the start of t. */
  function CString(t: string): string {
    if t == "" || t[0] == '\0' then "" else [t[0]] + CString(t[1..])
  }

  function FirstSlash(t: string): nat
    ensures FirstSlash(t) <= |t|
  {
    if t == "" || t[0] == '/' then 0 else 1 + FirstSlash(t[1..])
  }

  function Split(t: string): Result {
    var k := FirstSlash(t);
    Printed(t[..k], if k < |t| then t[k + 1..] else "")
  }

  /** What the program prints, for a buffer of `size` characters. */
  function Output(cat: Catalog, id: int, size: nat): Result {
    match Fill(cat, id, size - 1)
    case NoEntry => LookupFailed
    case Underflow => OutOfBounds
    case Text(s) => if s == "" then OutOfBounds else Split(CString(s[1..]))
  }

  lemma AboveTwice(f: Filled, a: string, b: string)
    ensures Above(Above(f, a), b) == Above(f, a + b)
  {
    if f.Text? {
      assert f.s + a + b == f.s + (a + b);
    }
  }

  lemma {:induction false} CStringEnds(t: string, k: nat)
    requires k <= |t| && (forall j :: 0 <= j < k ==> t[j] != '\0') && (k == |t| || t[k] == '\0')
    ensures CString(t) == t[..k]
    decreases k
  {
    if k > 0 {
      CStringEnds(t[1..], k - 1);
      assert t[..k] == [t[0]] + t[1..][..k - 1];
    }
  }

  /** What scanning for a slash finds in a C string. */
  lemma {:induction false} SlashFound(t: string, k: nat)
    requires k <= |t| && (forall j :: 0 <= j < k ==> t[j] != '\0' && t[j] != '/')
    requires k == |t| || t[k] == '\0' || t[k] == '/'
    ensures FirstSlash(CString(t)) == k && k <= |CString(t)| && CString(t)[..k] == t[..k]
    ensures k < |CString(t)| <==> k < |t| && t[k] == '/'
    ensures k < |CString(t)| ==> CString(t)[k + 1..] == CString(t[k + 1..])
    decreases k
  {
    if k > 0 {
      SlashFound(t[1..], k - 1);
      var c := CString(t[1..]);
      assert CString(t) == [t[0]] + c && CString(t)[1..] == c;
      assert t[..k] == [t[0]] + t[1..][..k - 1] && CString(t)[..k] == [t[0]] + c[..k - 1];
      assert k < |t| ==> t[k + 1..] == t[1..][k..];
      assert k < |CString(t)| ==> CString(t)[k + 1..] == c[k..];
    }
  }

  method CopyName(path: array<char>, cursor: nat, name: string)
    requires cursor + |name| <= path.Length
    modifies path
    ensures path[..] == old(path[..cursor]) + name + old(path[cursor + |name|..])
  {
    forall k | 0 <= k < |name| {
      path[cursor + k] := name[k];
    }
  }

  lemma CopiedSlice(now: string, was: string, name: string, start: nat, end: nat)
    requires start + |name| <= end <= |was| && now == was[..start] + name + was[start + |name|..]
    ensures now[start..end] == name + was[start + |name|..end]
  {
  }

  /** Puts "/name" in front of the text that starts where the name will end. */
  method PrependName(path: array<char>, start: nat, end: nat, name: string, ghost text: string)
    requires 1 <= start && start + |name| <= end < path.Length && path[start + |name|..end] == text
    modifies path
    ensures path[start - 1..end] == ("/" + name) + text && path[end] == old(path[end])
  {
    ghost var was := path[..];
    CopyName(path, start, name);
    CopiedSlice(path[..], was, name, start, end);
    path[start - 1] := '/';
    assert path[start..end] == name + text;
  }

  /** The walk: the index of the first character, or why there is none. The index
      and the remaining length are equal throughout. */
  method FillPath(cat: Catalog, cnid: int, path: array<char>) returns (f: Filled, cursor: nat)
    requires path.Length >= 1 && path[path.Length - 1] == '\0'
    modifies path
    ensures path[path.Length - 1] == '\0' && cursor < path.Length
    ensures f == Fill(cat, cnid, path.Length - 1)
    ensures f.Text? ==> f.s == path[cursor..path.Length - 1]
  {
    var end := path.Length - 1;
    var len, id := end, cnid;
    cursor := end;
    ghost var text := "";
    Nothing(Fill(cat, id, len));
    while true
      invariant cursor == len <= end && path[end] == '\0'
      invariant text == path[cursor..end]
      invariant Fill(cat, cnid, end) == Above(Fill(cat, id, len), text)
      decreases len
    {
      if id !in cat {
        return NoEntry, cursor;
      }
      var entry := cat[id];
      if entry.parent == id || len <= 0 {
        return Text(path[cursor..end]), cursor;
      }
      if cursor - |entry.name| - 1 < 0 {
        return Underflow, cursor;
      }
      var start := cursor - |entry.name|;
      PrependName(path, start, end, entry.name, text);
      AboveTwice(Fill(cat, entry.parent, start - 1), "/" + entry.name, text);
      text := ("/" + entry.name) + text;
      cursor := start - 1;
      len := len - (1 + |entry.name|);
      id := entry.parent;
    }
  }

  lemma Nothing(f: Filled)
    ensures Above(f, "") == f
  {
    assert f.Text? ==> f.s + "" == f.s;
  }

  /** A part of a part of a string. */
  lemma PartOf(b: string, start: nat, end: nat, lo: nat, hi: nat)
    requires start <= lo <= hi <= end <= |b|
    ensures b[start..end][lo - start..hi - start] == b[lo..hi]
  {
    var x, y := b[start..end][lo - start..hi - start], b[lo..hi];
    forall k | 0 <= k < hi - lo ensures x[k] == y[k] {
      assert x[k] == b[start..end][lo - start + k] == b[lo + k];
    }
  }

  lemma CharOf(b: string, start: nat, end: nat, j: nat)
    requires start <= j < end <= |b|
    ensures b[start..end][j - start] == b[j]
  {
  }

  lemma CStringAt(t: string, from: nat, m: nat)
    requires from <= m <= |t| && (forall j :: from <= j < m ==> t[j] != '\0') && (m == |t| || t[m] == '\0')
    ensures CString(t[from..]) == t[from..m]
  {
    hide CString;
    CStringEnds(t[from..], m - from);
    assert t[from..][..m - from] == t[from..m];
  }

  /** The two scans, for the slash at k and for the end of the string at m. */
  lemma ScansSplit(t: string, k: nat, m: nat)
    requires k <= |t| && (forall j :: 0 <= j < k ==> t[j] != '\0' && t[j] != '/')
    requires k == |t| || t[k] == '\0' || t[k] == '/'
    requires k < |t| && t[k] == '/' ==>
      k < m <= |t| && (forall j :: k < j < m ==> t[j] != '\0') && (m == |t| || t[m] == '\0')
    ensures Split(CString(t)) == Printed(t[..k], if k < |t| && t[k] == '/' then t[k + 1..m] else "")
  {
    hide CString, FirstSlash;
    SlashFound(t, k);
    if k < |t| && t[k] == '/' {
      CStringAt(t, k + 1, m);
    }
  }

  lemma NoSlashAt(b: string, cursor: nat, k: nat)
    requires cursor <= k < |b| && b[k] == '\0'
    requires forall j :: cursor <= j < k ==> b[j] != '\0' && b[j] != '/'
    ensures Split(CString(b[cursor..|b| - 1])) == Printed(b[cursor..k], "")
  {
    hide Split, CString;
    var t, n := b[cursor..|b| - 1], k - cursor;
    forall j | 0 <= j < |t| && j <= n ensures t[j] == b[cursor + j] {
      CharOf(b, cursor, |b| - 1, cursor + j);
    }
    PartOf(b, cursor, |b| - 1, cursor, k);
    assert t[..n] == t[0..n];
    ScansSplit(t, n, 0);
  }

  lemma SlashAt(b: string, cursor: nat, k: nat, m: nat)
    requires cursor <= k < m < |b| && b[k] == '/' && b[m] == '\0'
    requires forall j :: cursor <= j < k ==> b[j] != '\0' && b[j] != '/'
    requires forall j :: k < j < m ==> b[j] != '\0'
    ensures Split(CString(b[cursor..|b| - 1])) == Printed(b[cursor..k], b[k + 1..m])
  {
    hide Split, CString;
    var t, n, e := b[cursor..|b| - 1], k - cursor, m - cursor;
    forall j | 0 <= j < |t| && j <= e ensures t[j] == b[cursor + j] {
      CharOf(b, cursor, |b| - 1, cursor + j);
    }
    PartOf(b, cursor, |b| - 1, cursor, k);
    assert t[..n] == t[0..n];
    PartOf(b, cursor, |b| - 1, k + 1, m);
    ScansSplit(t, n, e);
  }

  /** The same scans, as indices of the whole buffer. */
  lemma ScansSplitAt(b: string, cursor: nat, k: nat, m: nat)
    requires cursor <= k < |b| && b[|b| - 1] == '\0' && (b[k] == '\0' || b[k] == '/')
    requires forall j :: cursor <= j < k ==> b[j] != '\0' && b[j] != '/'
    requires b[k] == '/' ==> k < m < |b| && b[m] == '\0' && forall j :: k < j < m ==> b[j] != '\0'
    ensures Split(CString(b[cursor..|b| - 1])) == Printed(b[cursor..k], if b[k] == '/' then b[k + 1..m] else "")
  {
    hide Split, CString;
    if b[k] == '/' {
      SlashAt(b, cursor, k, m);
    } else {
      NoSlashAt(b, cursor, k);
    }
  }

  /** strchr for the slash, which is then cut out; the two strings printed. */
  method SplitAtSlash(path: array<char>, cursor: nat) returns (r: Result)
    requires cursor < path.Length && path[path.Length - 1] == '\0'
    ensures r == Split(CString(path[..][cursor..path.Length - 1]))
  {
    hide Split, CString;
    var upath := cursor;
    while path[upath] != '/' && path[upath] != '\0'
      invariant cursor <= upath < path.Length
      invariant forall j :: cursor <= j < upath ==> path[j] != '/' && path[j] != '\0'
      decreases path.Length - upath
    {
      upath := upath + 1;
    }
    var end := upath + 1;
    if path[upath] == '/' {
      while path[end] != '\0'
        invariant upath < end < path.Length
        invariant forall j :: upath < j < end ==> path[j] != '\0'
        decreases path.Length - end
      {
        end := end + 1;
      }
    }
    ScansSplitAt(path[..], cursor, upath, end);
    r := Printed(path[..][cursor..upath], if path[upath] == '/' then path[..][upath + 1..end] else "");
  }

  method CnidToPath(cat: Catalog, cnid: int, size: nat) returns (r: Result)
    requires size >= 1
    ensures r == Output(cat, cnid, size)
  {
    var path := new char[size](_ => '\0');
    var f, cursor := FillPath(cat, cnid, path);
    match f
    case NoEntry => r := LookupFailed;
    case Underflow => r := OutOfBounds;
    case Text(_) =>
      cursor := cursor + 1;
      if cursor == size {
        return OutOfBounds;
      }
      assert path[..][cursor..size - 1] == f.s[1..];
      r := SplitAtSlash(path, cursor);
  }

  // ----- what a path is -----

  /** The ids from just below a self-parent down to `id`. */
  predicate Lineage(cat: Catalog, ids: seq<int>, id: int) {
    && ids != [] && ids[|ids| - 1] == id && id in cat && cat[id].parent != id && cat[id].parent in cat
    && if |ids| == 1 then cat[cat[id].parent].parent == cat[id].parent
       else Lineage(cat, ids[..|ids| - 1], cat[id].parent)
  }

  function NameOf(cat: Catalog, id: int): string {
    if id in cat then cat[id].name else ""
  }

  function JoinedPath(cat: Catalog, ids: seq<int>): string {
    if ids == [] then "" else JoinedPath(cat, ids[..|ids| - 1]) + ("/" + NameOf(cat, ids[|ids| - 1]))
  }

  /** The walk leaves the slash-joined names of the lineage exactly when they fit
      the buffer with its terminating null; otherwise it either stops short or
      leaves the buffer. */
  lemma {:induction false} FillsLineage(cat: Catalog, ids: seq<int>, id: int, len: int)
    requires Lineage(cat, ids, id) && len >= 0
    ensures |JoinedPath(cat, ids)| <= len ==> Fill(cat, id, len) == Text(JoinedPath(cat, ids))
    ensures |JoinedPath(cat, ids)| > len ==>
              Fill(cat, id, len).Underflow? || (Fill(cat, id, len).Text? && |Fill(cat, id, len).s| <= len)
    decreases |ids|
  {
    var parent, name, front := cat[id].parent, cat[id].name, ids[..|ids| - 1];
    if len > 0 && len - 1 - |name| >= 0 {
      if |ids| == 1 {
        assert JoinedPath(cat, front) == "";
        assert Fill(cat, parent, len - 1 - |name|) == Text("");
        assert "" + ("/" + name) == "/" + name;
      } else {
        FillsLineage(cat, front, parent, len - 1 - |name|);
      }
    }
  }

  // ----- every way the walk can end -----

  /** The ids from just below `top` down to `id`, each the child of the one before
      it and none its own parent. */
  predicate Climb(cat: Catalog, ids: seq<int>, id: int, top: int)
    decreases |ids|
  {
    if ids == [] then id == top
    else && ids[|ids| - 1] == id && id in cat && cat[id].parent != id
         && Climb(cat, ids[..|ids| - 1], cat[id].parent, top)
  }

  /** With the names below `top` in the buffer, the walk ends there if its lookup
      fails, if it is its own parent, if the buffer is just full, or if its own
      name does not fit; and it leaves what these say. */
  lemma {:induction false} WalkEnds(cat: Catalog, ids: seq<int>, id: int, top: int, len: int)
    requires Climb(cat, ids, id, top) && |JoinedPath(cat, ids)| <= len
    ensures top !in cat ==> Fill(cat, id, len) == NoEntry
    ensures top in cat && (cat[top].parent == top || |JoinedPath(cat, ids)| == len) ==>
      Fill(cat, id, len) == Text(JoinedPath(cat, ids))
    ensures top in cat && cat[top].parent != top
            && |JoinedPath(cat, ids)| < len < |JoinedPath(cat, ids)| + 1 + |cat[top].name| ==>
      Fill(cat, id, len) == Underflow
    decreases |ids|
  {
    if ids != [] {
      var front, name := ids[..|ids| - 1], cat[id].name;
      assert JoinedPath(cat, ids) == JoinedPath(cat, front) + ("/" + name);
      WalkEnds(cat, front, cat[id].parent, top, len - 1 - |name|);
    }
  }

  /** Whatever the catalog, cycles included, the walk ends in one of these ways. */
  lemma {:induction false} SomeWalk(cat: Catalog, id: int, len: int) returns (ids: seq<int>, top: int)
    requires len >= 0
    ensures Climb(cat, ids, id, top) && |JoinedPath(cat, ids)| <= len
    ensures top in cat && cat[top].parent != top ==>
      |JoinedPath(cat, ids)| == len || len < |JoinedPath(cat, ids)| + 1 + |cat[top].name|
    decreases len
  {
    if id !in cat || cat[id].parent == id || len == 0 || len < 1 + |cat[id].name| {
      ids, top := [], id;
    } else {
      var front, t := SomeWalk(cat, cat[id].parent, len - 1 - |cat[id].name|);
      ids, top := front + [id], t;
      assert ids[..|ids| - 1] == front;
    }
  }

  lemma {:induction false} OneFailedLookup(cat: Catalog, ids: seq<int>, ids': seq<int>, id: int, top: int, top': int)
    requires Climb(cat, ids, id, top) && Climb(cat, ids', id, top') && top !in cat && top' !in cat
    ensures ids == ids'
    decreases |ids|
  {
    if ids != [] && ids' != [] {
      OneFailedLookup(cat, ids[..|ids| - 1], ids'[..|ids'| - 1], cat[id].parent, top, top');
      assert ids == ids[..|ids| - 1] + [id] && ids' == ids'[..|ids'| - 1] + [id];
    }
  }

  /** What is printed, for each way of ending. */
  lemma OutputEnds(cat: Catalog, ids: seq<int>, id: int, top: int, size: nat)
    requires size >= 1 && Climb(cat, ids, id, top) && |JoinedPath(cat, ids)| < size
    ensures var j := JoinedPath(cat, ids);
      && (top !in cat ==> Output(cat, id, size) == LookupFailed)
      && (top in cat && (cat[top].parent == top || |j| == size - 1) ==>
            Output(cat, id, size) == if j == "" then OutOfBounds else Split(CString(j[1..])))
      && (top in cat && cat[top].parent != top && |j| < size - 1 < |j| + 1 + |cat[top].name| ==>
            Output(cat, id, size) == OutOfBounds)
  {
    hide Fill, Split, CString;
    WalkEnds(cat, ids, id, top, size - 1);
  }

  /** Above an id, a lookup that fails is reached, and nothing printed, exactly if
      the names below it fit the buffer with a null. */
  lemma LookupFails(cat: Catalog, ids: seq<int>, id: int, top: int, size: nat)
    requires size >= 1 && Climb(cat, ids, id, top) && top !in cat
    ensures Output(cat, id, size) == LookupFailed <==> |JoinedPath(cat, ids)| < size
  {
    hide Fill, Split, CString, JoinedPath, Climb, Output;
    var ids', top' := SomeWalk(cat, id, size - 1);
    OutputEnds(cat, ids', id, top', size);
    if top' !in cat {
      OneFailedLookup(cat, ids, ids', id, top, top');
    } else if |JoinedPath(cat, ids)| < size {
      OutputEnds(cat, ids, id, top, size);
    } else if JoinedPath(cat, ids') != "" {
      SplitNotFailed(CString(JoinedPath(cat, ids')[1..]));
    }
  }

  lemma SplitNotFailed(t: string)
    ensures Split(t).Printed?
  {
  }

  /** An id that is not in the catalog is never printed. */
  lemma UnknownId(cat: Catalog, id: int, size: nat)
    requires size >= 1 && id !in cat
    ensures Output(cat, id, size) == LookupFailed
  {
    assert Climb(cat, [], id, id) && JoinedPath(cat, []) == "";
    LookupFails(cat, [], id, id, size);
  }

  /** A C string has no null and ends at the first. */
  lemma {:induction false} CStringIs(t: string)
    ensures '\0' !in CString(t) && CString(t) <= t
    ensures |CString(t)| < |t| ==> t[|CString(t)|] == '\0'
    decreases |t|
  {
    if t != "" && t[0] != '\0' {
      CStringIs(t[1..]);
    }
  }

  lemma {:induction false} FirstSlashIs(t: string)
    ensures FirstSlash(t) < |t| ==> t[FirstSlash(t)] == '/'
    ensures '/' !in t[..FirstSlash(t)]
    decreases |t|
  {
    if t != "" && t[0] != '/' {
      FirstSlashIs(t[1..]);
      assert t[..FirstSlash(t)] == [t[0]] + t[1..][..FirstSlash(t[1..])];
    }
  }

  /** The two strings printed, put together with a slash, are the string split,
      whatever is in it; the first has no slash. */
  lemma SplitIs(t: string)
    ensures Split(t).Printed? && '/' !in Split(t).volume
    ensures if '/' in t then t == Split(t).volume + "/" + Split(t).path
            else t == Split(t).volume && Split(t).path == ""
  {
    FirstSlashIs(t);
    var k := FirstSlash(t);
    if k < |t| {
      assert t == t[..k] + [t[k]] + t[k + 1..];
    } else {
      assert t[..k] == t;
    }
  }

  // ----- resolving what was printed -----

  predicate NameOk(name: string) {
    name != "" && '/' !in name && '\0' !in name
  }

  predicate Siblings(cat: Catalog, a: int, b: int)
    requires a in cat && b in cat
  {
    cat[a].parent == cat[b].parent && cat[a].parent != a && cat[b].parent != b
  }

  /** Names as the file system allows them, and no two alike under one parent. */
  predicate WellNamed(cat: Catalog) {
    && (forall id :: id in cat && cat[id].parent != id ==> NameOk(cat[id].name))
    && (forall a, b :: a in cat && b in cat && Siblings(cat, a, b) && cat[a].name == cat[b].name ==> a == b)
  }

  /** The components of a path. */
  function Components(t: string): seq<string>
    decreases |t|
  {
    var k := FirstSlash(t);
    if k == |t| then [t] else [t[..k]] + Components(t[k + 1..])
  }

  /** The components that were printed: the volume, then those of the path. */
  function PrintedComponents(volume: string, path: string): seq<string> {
    [volume] + if path == "" then [] else Components(path)
  }

  /** Following the components down from `from` can lead to `to`. */
  ghost predicate LeadsTo(cat: Catalog, from: int, comps: seq<string>, to: int)
    decreases |comps|
  {
    if comps == [] then to == from
    else exists c :: c in cat && cat[c].parent == from && c != from && cat[c].name == comps[0]
                     && LeadsTo(cat, c, comps[1..], to)
  }

  function Names(cat: Catalog, ids: seq<int>): seq<string> {
    seq(|ids|, k requires 0 <= k < |ids| => NameOf(cat, ids[k]))
  }

  function Join(ns: seq<string>): string {
    if ns == [] then "" else ("/" + ns[0]) + Join(ns[1..])
  }

  lemma {:induction false} JoinsOneMore(ns: seq<string>, n: string)
    ensures Join(ns + [n]) == Join(ns) + ("/" + n)
    decreases |ns|
  {
    if ns == [] {
      assert [n][1..] == [] && ([] + [n]) == [n];
      assert ("/" + n) + "" == "/" + n && "" + ("/" + n) == "/" + n;
    } else {
      assert (ns + [n])[1..] == ns[1..] + [n];
      JoinsOneMore(ns[1..], n);
      assert ("/" + ns[0]) + (Join(ns[1..]) + ("/" + n)) == (("/" + ns[0]) + Join(ns[1..])) + ("/" + n);
    }
  }

  lemma {:induction false} JoinedNames(cat: Catalog, ids: seq<int>)
    ensures JoinedPath(cat, ids) == Join(Names(cat, ids))
    decreases |ids|
  {
    if ids != [] {
      var front := ids[..|ids| - 1];
      JoinedNames(cat, front);
      JoinsOneMore(Names(cat, front), NameOf(cat, ids[|ids| - 1]));
      assert Names(cat, ids) == Names(cat, front) + [NameOf(cat, ids[|ids| - 1])];
    }
  }

  lemma {:induction false} FirstSlashAfter(a: string, b: string)
    requires '/' !in a && (b == "" || b[0] == '/')
    ensures FirstSlash(a + b) == |a|
    decreases |a|
  {
    if a == "" {
      assert a + b == b;
    } else {
      assert (a + b)[1..] == a[1..] + b;
      FirstSlashAfter(a[1..], b);
    }
  }

  predicate NamesOk(ns: seq<string>) {
    forall n :: n in ns ==> NameOk(n)
  }

  lemma NamesParts(ns: seq<string>)
    requires ns != [] && NamesOk(ns)
    ensures NameOk(ns[0]) && NamesOk(ns[1..])
  {
    assert NameOk(ns[0]);
  }

  lemma AfterSlash(a: string, b: string)
    ensures var whole := ("/" + a) + b; whole != "" && whole[0] == '/' && whole[1..] == a + b
  {
    var whole := ("/" + a) + b;
    assert whole == ['/'] + (a + b);
  }

  lemma JoinsFirst(ns: seq<string>)
    requires ns != []
    ensures Join(ns) != "" && Join(ns)[0] == '/' && Join(ns)[1..] == ns[0] + Join(ns[1..])
  {
    AfterSlash(ns[0], Join(ns[1..]));
  }

  lemma NothingJoined(ns: seq<string>)
    requires ns != []
    ensures |ns| == 1 ==> Join(ns[1..]) == ""
  {
  }

  lemma JoinParts(ns: seq<string>)
    requires ns != [] && NamesOk(ns)
    ensures NameOk(ns[0]) && NamesOk(ns[1..])
    ensures Join(ns) != "" && Join(ns)[1..] == ns[0] + Join(ns[1..])
    ensures Join(ns[1..]) == "" <==> |ns| == 1
    ensures |ns| > 1 ==> Join(ns[1..])[0] == '/'
    ensures FirstSlash(Join(ns)[1..]) == |ns[0]|
  {
    NothingJoined(ns);
    hide Join, NamesOk, FirstSlash;
    NamesParts(ns);
    JoinsFirst(ns);
    if |ns| > 1 {
      JoinsFirst(ns[1..]);
    }
    FirstSlashAfter(ns[0], Join(ns[1..]));
  }

  lemma {:induction false} ComponentsOfJoin(ns: seq<string>)
    requires ns != [] && NamesOk(ns)
    ensures Join(ns) != "" && Components(Join(ns)[1..]) == ns
    decreases |ns|
  {
    JoinParts(ns);
    var t := Join(ns)[1..];
    if |ns| == 1 {
      assert t == ns[0];
    } else {
      ComponentsOfJoin(ns[1..]);
      assert t[..|ns[0]|] == ns[0] && t[|ns[0]| + 1..] == Join(ns[1..])[1..];
      assert [ns[0]] + ns[1..] == ns;
    }
  }

  lemma {:induction false} NoNulls(t: string)
    requires '\0' !in t
    ensures CString(t) == t
    decreases |t|
  {
    CStringEnds(t, |t|);
    assert t[..|t|] == t;
  }

  lemma {:induction false} JoinHasNoNulls(ns: seq<string>)
    requires NamesOk(ns)
    ensures '\0' !in Join(ns)
    decreases |ns|
  {
    if ns != [] {
      assert NameOk(ns[0]);
      JoinHasNoNulls(ns[1..]);
    }
  }

  /** The names below the first, as they are printed. */
  function PathOf(ns: seq<string>): string
    requires ns != []
  {
    if |ns| > 1 && Join(ns[1..]) != "" then Join(ns[1..])[1..] else ""
  }

  lemma SplitsFirst(ns: seq<string>)
    requires ns != [] && NamesOk(ns)
    ensures Join(ns) != "" && Split(Join(ns)[1..]) == Printed(ns[0], PathOf(ns))
  {
    hide Join, FirstSlash, NamesOk, NameOk;
    JoinParts(ns);
    var t, rest := Join(ns)[1..], Join(ns[1..]);
    assert t[..|ns[0]|] == ns[0];
    if |ns| > 1 {
      assert t[|ns[0]| + 1..] == rest[1..];
    }
  }

  lemma ComponentsOfPath(ns: seq<string>)
    requires ns != [] && NamesOk(ns)
    ensures PrintedComponents(ns[0], PathOf(ns)) == ns
  {
    JoinParts(ns);
    if |ns| > 1 {
      NotEmptyJoin(ns[1..]);
      ComponentsOfJoin(ns[1..]);
    }
    hide Join, NamesOk, Components;
    assert [ns[0]] + ns[1..] == ns;
  }

  /** The printed volume and path have the names as their components. */
  lemma SplitOfJoin(ns: seq<string>)
    requires ns != [] && NamesOk(ns)
    ensures Join(ns) != "" && CString(Join(ns)[1..]) == Join(ns)[1..]
    ensures Split(Join(ns)[1..]) == Printed(ns[0], PathOf(ns))
    ensures PrintedComponents(ns[0], PathOf(ns)) == ns
  {
    hide Join, CString, FirstSlash, NamesOk, NameOk, Components, Split, PrintedComponents, PathOf;
    SplitsFirst(ns);
    ComponentsOfPath(ns);
    JoinHasNoNulls(ns);
    NoNulls(Join(ns)[1..]);
  }

  lemma NotEmptyJoin(ns: seq<string>)
    requires ns != [] && NamesOk(ns)
    ensures Join(ns) != "" && Join(ns)[1..] != ""
  {
    JoinParts(ns);
    assert NameOk(ns[0]);
  }

  lemma {:induction false} LineageLinks(cat: Catalog, ids: seq<int>, id: int, k: nat)
    requires Lineage(cat, ids, id) && k < |ids|
    ensures ids[k] in cat && cat[ids[k]].parent != ids[k]
    ensures k > 0 ==> cat[ids[k]].parent == ids[k - 1]
    decreases |ids|
  {
    if k < |ids| - 1 {
      LineageLinks(cat, ids[..|ids| - 1], cat[id].parent, k);
    }
  }

  /** Following the names of a lineage leads to its id and nowhere else. */
  lemma {:induction false} LeadsToId(cat: Catalog, ids: seq<int>, id: int, k: nat, to: int)
    requires Lineage(cat, ids, id) && WellNamed(cat) && k < |ids| && ids[k] in cat
    ensures LeadsTo(cat, cat[ids[k]].parent, Names(cat, ids)[k..], to) <==> to == id
    decreases |ids| - k
  {
    LineageLinks(cat, ids, id, k);
    var from, c, comps := cat[ids[k]].parent, ids[k], Names(cat, ids)[k..];
    assert comps[0] == cat[c].name && comps[1..] == Names(cat, ids)[k + 1..];
    assert LeadsTo(cat, c, comps[1..], to) <==> to == id by {
      if k + 1 < |ids| {
        LineageLinks(cat, ids, id, k + 1);
        LeadsToId(cat, ids, id, k + 1, to);
      } else {
        assert comps[1..] == [];
      }
    }
    forall d | d in cat && cat[d].parent == from && d != from && cat[d].name == comps[0] ensures d == c {
      assert Siblings(cat, d, c);
    }
  }

  lemma SplitLength(x: string, v: string, p: string)
    requires Split(x) == Printed(v, p)
    ensures |v| <= |x| && (p != "" ==> |x| == |v| + 1 + |p|)
  {
  }

  lemma CStringLength(t: string)
    ensures |CString(t)| <= |t|
  {
  }

  lemma LineageNames(cat: Catalog, ids: seq<int>, id: int)
    requires Lineage(cat, ids, id) && WellNamed(cat)
    ensures NamesOk(Names(cat, ids)) && Names(cat, ids) != [] && ids[0] in cat
    ensures JoinedPath(cat, ids) == Join(Names(cat, ids))
  {
    forall k | 0 <= k < |ids| ensures NameOk(NameOf(cat, ids[k])) {
      LineageLinks(cat, ids, id, k);
    }
    LineageLinks(cat, ids, id, 0);
    JoinedNames(cat, ids);
  }

  lemma ShorterDiffers(ns: seq<string>, s: string)
    requires ns != [] && NamesOk(ns) && s != "" && |s| < |Join(ns)|
    ensures Join(ns) != "" && Split(CString(s[1..])) != Split(Join(ns)[1..])
  {
    hide CString, Join, Split, NamesOk;
    SplitOfJoin(ns);
    JoinParts(ns);
    CStringLength(s[1..]);
    var x, path := CString(s[1..]), PathOf(ns);
    SplitLength(Join(ns)[1..], ns[0], path);
    if Split(x) == Printed(ns[0], path) {
      SplitLength(x, ns[0], path);
      assert false;
    }
  }

  /** For a buffer of `size` characters, the program prints the id's path exactly
      when the slash-joined names and a null fit it. */
  lemma PrintsExactly(cat: Catalog, ids: seq<int>, id: int, size: nat)
    requires Lineage(cat, ids, id) && WellNamed(cat) && size >= 1
    ensures JoinedPath(cat, ids) != ""
    ensures Output(cat, id, size) == Split(JoinedPath(cat, ids)[1..]) <==> |JoinedPath(cat, ids)| < size
  {
    hide Fill, Names, JoinedPath, WellNamed, Lineage, NamesOk, CString, Join, Split, PrintedComponents;
    LineageNames(cat, ids, id);
    var ns := Names(cat, ids);
    SplitOfJoin(ns);
    FillsLineage(cat, ids, id, size - 1);
    var f := Fill(cat, id, size - 1);
    if |Join(ns)| >= size && f.Text? && f.s != "" {
      ShorterDiffers(ns, f.s);
    }
  }

  /** What is printed leads back to the id it was asked for, and to no other. */
  lemma PrintedLeadsBack(cat: Catalog, ids: seq<int>, id: int, size: nat)
    requires Lineage(cat, ids, id) && WellNamed(cat) && |JoinedPath(cat, ids)| < size
    ensures var r := Output(cat, id, size);
      && r.Printed? && ids[0] in cat
      && forall to :: LeadsTo(cat, cat[ids[0]].parent, PrintedComponents(r.volume, r.path), to) <==> to == id
  {
    hide Fill, Names, JoinedPath, WellNamed, NamesOk, CString, Join, Split, PrintedComponents, LeadsTo, Output;
    PrintsExactly(cat, ids, id, size);
    LineageNames(cat, ids, id);
    SplitOfJoin(Names(cat, ids));
    forall to ensures LeadsTo(cat, cat[ids[0]].parent, Names(cat, ids), to) <==> to == id {
      LeadsToId(cat, ids, id, 0, to);
      assert Names(cat, ids)[0..] == Names(cat, ids);
    }
  }

  /** Asked for a self-parent, the program reads past its buffer. */
  lemma SelfParentOverruns(cat: Catalog, id: int, size: nat)
    requires id in cat && cat[id].parent == id
    ensures Output(cat, id, size) == OutOfBounds
  {
  }
}
