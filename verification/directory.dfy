/** Resolving references to nodes by id or by unique name. */
module Directory {
  import opened Prelude
  import opened Text
  import opened Forest

  predicate IsHex(c: char) {
    '0' <= c <= '9' || 'a' <= c <= 'f' || 'A' <= c <= 'F'
  }

  predicate LooksLikeUuid(s: string) {
    |s| == 36 && forall i :: 0 <= i < 36 ==> if i in {8, 13, 18, 23} then s[i] == '-' else IsHex(s[i])
  }

  /** Node ids are generated UUIDs and unique. */
  ghost predicate ValidDirectory(dir: seq<Node>) {
    DistinctIds(dir) && forall n :: n in dir ==> LooksLikeUuid(n.id)
  }

  function GetNode(dir: seq<Node>, id: string): (r: Option<Node>)
    ensures r.Some? ==> r.value in dir && r.value.id == id
    ensures r.None? ==> forall n :: n in dir ==> n.id != id
  {
    if dir == [] then None else if dir[0].id == id then Some(dir[0]) else GetNode(dir[1..], id)
  }

  function NodesByName(dir: seq<Node>, name: string): (r: seq<Node>)
    ensures forall n :: n in r ==> n in dir && n.name == name
  {
    if dir == [] then []
    else (if dir[0].name == name then [dir[0]] else []) + NodesByName(dir[1..], name)
  }

  datatype RefError = EmptyReference | IdNotFound | NameNotFound | NameNotUnique

  function UniqueByName(dir: seq<Node>, name: string): Result<Node, RefError> {
    var matches := NodesByName(dir, name);
    if matches == [] then Err(NameNotFound)
    else if |matches| > 1 then Err(NameNotUnique)
    else Ok(matches[0])
  }

  function ResolveReference(dir: seq<Node>, value: string): (r: Result<Node, RefError>)
    ensures r.Ok? ==> r.value in dir
  {
    var raw := Strip(value);
    if raw == "" then Err(EmptyReference)
    else if LooksLikeUuid(raw) then
      match GetNode(dir, raw)
      case None => Err(IdNotFound)
      case Some(n) => Ok(n)
    else UniqueByName(dir, raw)
  }

  predicate AllHex(s: string) {
    forall i :: 0 <= i < |s| ==> IsHex(s[i])
  }

  /** Five groups with dashes between them. */
  function Dashed(a: string, b: string, c: string, d: string, e: string): string {
    a + "-" + b + "-" + c + "-" + d + "-" + e
  }

  /** An id is five groups of 8, 4, 4, 4 and 12 hexadecimal digits with dashes between
      them, and nothing else is. */
  lemma UuidIff(s: string)
    ensures LooksLikeUuid(s) <==>
              exists a, b, c, d, e ::
                && |a| == 8 && |b| == 4 && |c| == 4 && |d| == 4 && |e| == 12 && s == Dashed(a, b, c, d, e)
                && AllHex(a + b + c + d + e)
  {
    if LooksLikeUuid(s) {
      assert s == Dashed(s[..8], s[9..13], s[14..18], s[19..23], s[24..]);
      assert AllHex(s[..8] + s[9..13] + s[14..18] + s[19..23] + s[24..]);
    } else if a, b, c, d, e :| |a| == 8 && |b| == 4 && |c| == 4 && |d| == 4 && |e| == 12
                              && s == Dashed(a, b, c, d, e) && AllHex(a + b + c + d + e) {
      GroupsLookLikeUuid(a, b, c, d, e);
    }
  }

  lemma GroupsLookLikeUuid(a: string, b: string, c: string, d: string, e: string)
    requires |a| == 8 && |b| == 4 && |c| == 4 && |d| == 4 && |e| == 12 && AllHex(a + b + c + d + e)
    ensures LooksLikeUuid(Dashed(a, b, c, d, e))
  {
    var s, all := Dashed(a, b, c, d, e), a + b + c + d + e;
    forall i | 0 <= i < 36 ensures if i in {8, 13, 18, 23} then s[i] == '-' else IsHex(s[i]) {
      if i !in {8, 13, 18, 23} {
        var gaps := if i < 8 then 0 else if i < 13 then 1 else if i < 18 then 2 else if i < 23 then 3 else 4;
        assert s[i] == all[i - gaps];
      }
    }
  }

  lemma GetNodeById(dir: seq<Node>, n: Node)
    requires DistinctIds(dir) && n in dir
    ensures GetNode(dir, n.id) == Some(n)
  {
    var found := GetNode(dir, n.id).value;
    var i :| 0 <= i < |dir| && dir[i] == n;
    var j :| 0 <= j < |dir| && dir[j] == found;
  }

  /** A reference that is already stripped resolves by its shape: ids by id,
      anything else by unique name. */
  lemma ResolveTrimmed(dir: seq<Node>, raw: string)
    requires Trimmed(raw) && raw != ""
    ensures ResolveReference(dir, raw) ==
              if LooksLikeUuid(raw)
              then (if GetNode(dir, raw).None? then Err(IdNotFound) else Ok(GetNode(dir, raw).value))
              else UniqueByName(dir, raw)
  {
    StripTrimmed(raw);
  }

  lemma HexIsNoSpace(s: string)
    requires LooksLikeUuid(s)
    ensures Trimmed(s) && s != ""
  {
  }

  lemma {:induction false} NoneNamed(dir: seq<Node>, name: string)
    ensures NodesByName(dir, name) == [] <==> forall n :: n in dir ==> n.name != name
  {
    if dir != [] { NoneNamed(dir[1..], name); }
  }

  lemma {:induction false} OnlyNamed(dir: seq<Node>, n: Node)
    requires DistinctIds(dir) && n in dir
    ensures NodesByName(dir, n.name) == [n] <==> forall m :: m in dir && m.name == n.name ==> m == n
  {
    var rest := NodesByName(dir[1..], n.name);
    assert dir == [dir[0]] + dir[1..];
    if dir[0] == n {
      NoneNamed(dir[1..], n.name);
      assert [n] + rest == [n] <==> rest == [];
      assert forall m :: m in dir[1..] ==> m != n;
    } else {
      OnlyNamed(dir[1..], n);
      assert [] + rest == rest && ([dir[0]] + rest)[0] == dir[0];
    }
  }

  /** Every node is found by its own id, whatever the names are; by its name
      exactly when that is its id, or no other node has it and it is neither
      blank at an end nor shaped like an id. */
  lemma NodeResolvesIff(dir: seq<Node>, n: Node)
    requires ValidDirectory(dir) && n in dir
    ensures ResolveReference(dir, n.id) == Ok(n)
    ensures ResolveReference(dir, n.name) == Ok(n) <==>
              || Strip(n.name) == n.id
              || (&& n.name != "" && Trimmed(n.name) && !LooksLikeUuid(n.name)
                  && forall m :: m in dir && m.name == n.name ==> m == n)
  {
    var raw := Strip(n.name);
    HexIsNoSpace(n.id);
    StripTrimmed(n.id);
    StripTrimmed(n.name);
    GetNodeById(dir, n);
    OnlyNamed(dir, n);
    if raw == n.name && raw != "" && !LooksLikeUuid(raw) {
      NamedOk(dir, n);
    }
  }

  lemma NamedOk(dir: seq<Node>, n: Node)
    requires DistinctIds(dir) && n in dir
    ensures UniqueByName(dir, n.name) == Ok(n) <==> NodesByName(dir, n.name) == [n]
  {
    var found := NodesByName(dir, n.name);
    if |found| == 1 {
      assert found == [found[0]];
    }
  }
}
