/** Comma lists of stack names: how the broker and the router read them, and the fallback order. */
module StackList {
  import opened Characters

  const COMMA: char := ','

  /** Unicode white space, which the broker trims. */
  predicate IsSpace(c: char) {
    IsCommonSpace(c) || c == '\U{85}'
  }

  function TrimLeft(s: string): string {
    if s != "" && IsSpace(s[0]) then TrimLeft(s[1..]) else s
  }

  function TrimRight(s: string): string {
    if s != "" && IsSpace(s[|s| - 1]) then TrimRight(s[..|s| - 1]) else s
  }

  function Trim(s: string): string {
    TrimRight(TrimLeft(s))
  }

  /** The stretches between commas, empty ones included. */
  function Pieces(raw: string): (pieces: seq<string>)
    ensures pieces != []
  {
    if raw == "" then [""]
    else
      var rest := Pieces(raw[1..]);
      if raw[0] == COMMA then [""] + rest else [[raw[0]] + rest[0]] + rest[1..]
  }

  function DropEmpty(names: seq<string>): seq<string> {
    if names == [] then []
    else (if names[0] == "" then [] else [names[0]]) + DropEmpty(names[1..])
  }

  function TrimAll(names: seq<string>): seq<string> {
    if names == [] then [] else [Trim(names[0])] + TrimAll(names[1..])
  }

  /** The broker's reading: trim every piece, drop the empty ones. */
  function Names(raw: string): seq<string> {
    DropEmpty(TrimAll(Pieces(raw)))
  }

  /** The router's reading, `gmatch "[^,]+"`: every longest run of non-commas, untrimmed. */
  function RouterNames(raw: string): seq<string> {
    DropEmpty(Pieces(raw))
  }

  function Join(names: seq<string>): string {
    if names == [] then ""
    else if |names| == 1 then names[0]
    else names[0] + [COMMA] + Join(names[1..])
  }

  /** A name both sides read back as it is written. */
  predicate Plain(name: string) {
    name != "" && COMMA !in name && Trim(name) == name
  }

  // ---- The list codec ---------------------------------------------------------

  lemma {:induction false} PiecesOfJoin(names: seq<string>)
    requires names != [] && forall n <- names :: COMMA !in n
    ensures Pieces(Join(names)) == names
  {
    if |names| == 1 {
      PiecesOfOne(names[0]);
    } else {
      PiecesOfJoin(names[1..]);
      PiecesOfHead(names[0], Join(names[1..]));
    }
  }

  lemma {:induction false} PiecesOfOne(name: string)
    requires COMMA !in name
    ensures Pieces(name) == [name]
  {
    if name != "" {
      PiecesOfOne(name[1..]);
      assert name == [name[0]] + name[1..];
    }
  }

  lemma {:induction false} PiecesOfHead(name: string, rest: string)
    requires COMMA !in name
    ensures Pieces(name + [COMMA] + rest) == [name] + Pieces(rest)
  {
    var raw := name + [COMMA] + rest;
    if name == "" {
      assert raw[1..] == rest;
    } else {
      assert raw[1..] == name[1..] + [COMMA] + rest;
      PiecesOfHead(name[1..], rest);
      assert name == [name[0]] + name[1..];
      assert ([name[1..]] + Pieces(rest))[1..] == Pieces(rest);
    }
  }

  lemma {:induction false} PlainNamesStay(names: seq<string>)
    requires forall n <- names :: Plain(n)
    ensures DropEmpty(TrimAll(names)) == names
  {
    if names != [] {
      assert Plain(names[0]);
      PlainNamesStay(names[1..]);
    }
  }

  /** Joining and reading back is the identity on plain names: a list survives every hop. */
  lemma NamesOfJoin(names: seq<string>)
    requires forall n <- names :: Plain(n)
    ensures Names(Join(names)) == names
  {
    if names == [] {
      assert Pieces("") == [""];
      assert TrimAll([""]) == [""];
    } else {
      PiecesOfJoin(names);
      PlainNamesStay(names);
    }
  }

  lemma {:induction false} PiecesHaveNoComma(raw: string)
    ensures forall p <- Pieces(raw) :: COMMA !in p
  {
    if raw != "" {
      PiecesHaveNoComma(raw[1..]);
    }
  }

  lemma {:induction false} TrimLeftTrims(s: string)
    ensures TrimLeft(s) == "" || !IsSpace(TrimLeft(s)[0])
    ensures forall c <- TrimLeft(s) :: c in s
  {
    if s != "" && IsSpace(s[0]) {
      TrimLeftTrims(s[1..]);
    }
  }

  lemma {:induction false} TrimRightTrims(s: string)
    ensures TrimRight(s) == "" || !IsSpace(TrimRight(s)[|TrimRight(s)| - 1])
    ensures TrimRight(s) == "" || TrimRight(s)[0] == s[0]
    ensures forall c <- TrimRight(s) :: c in s
  {
    if s != "" && IsSpace(s[|s| - 1]) {
      TrimRightTrims(s[..|s| - 1]);
    }
  }

  lemma TrimIsTrimmed(s: string)
    ensures Trim(Trim(s)) == Trim(s)
    ensures forall c <- Trim(s) :: c in s
  {
    TrimLeftTrims(s);
    TrimRightTrims(TrimLeft(s));
  }

  lemma {:induction false} TrimLeftDropsSpace(s: string) returns (before: string)
    ensures s == before + TrimLeft(s) && forall c <- before :: IsSpace(c)
  {
    before := "";
    if s != "" && IsSpace(s[0]) {
      var rest := TrimLeftDropsSpace(s[1..]);
      before := [s[0]] + rest;
    }
  }

  lemma {:induction false} TrimRightDropsSpace(s: string) returns (behind: string)
    ensures s == TrimRight(s) + behind && forall c <- behind :: IsSpace(c)
  {
    behind := "";
    if s != "" && IsSpace(s[|s| - 1]) {
      var rest := TrimRightDropsSpace(s[..|s| - 1]);
      behind := rest + [s[|s| - 1]];
    }
  }

  /** Trimming takes off white space at both ends, all of it, and nothing else. */
  lemma TrimIsMiddle(s: string) returns (before: string, behind: string)
    ensures s == before + Trim(s) + behind
    ensures (forall c <- before :: IsSpace(c)) && (forall c <- behind :: IsSpace(c))
    ensures Trim(s) == "" || (!IsSpace(Trim(s)[0]) && !IsSpace(Trim(s)[|Trim(s)| - 1]))
  {
    before := TrimLeftDropsSpace(s);
    behind := TrimRightDropsSpace(TrimLeft(s));
    TrimLeftTrims(s);
    TrimRightTrims(TrimLeft(s));
    assert s == before + (Trim(s) + behind);
  }

  /** The pieces, with the commas put back, are the text, and none has a comma in it. */
  lemma {:induction false} PiecesOfText(raw: string)
    ensures Join(Pieces(raw)) == raw && forall p <- Pieces(raw) :: COMMA !in p
  {
    if raw != "" {
      var rest := Pieces(raw[1..]);
      PiecesOfText(raw[1..]);
      assert raw == [raw[0]] + raw[1..];
      if raw[0] == COMMA {
        assert ([""] + rest)[1..] == rest;
      } else {
        assert ([[raw[0]] + rest[0]] + rest[1..])[1..] == rest[1..];
      }
    }
  }

  lemma {:induction false} ReadNamesArePlain(pieces: seq<string>)
    requires forall p <- pieces :: COMMA !in p
    ensures forall n <- DropEmpty(TrimAll(pieces)) :: Plain(n)
  {
    if pieces != [] {
      TrimIsTrimmed(pieces[0]);
      ReadNamesArePlain(pieces[1..]);
    }
  }

  lemma NamesArePlain(raw: string)
    ensures forall n <- Names(raw) :: Plain(n)
  {
    PiecesHaveNoComma(raw);
    ReadNamesArePlain(Pieces(raw));
  }

  /** Whatever was read, writing it out and reading it again gives the same list. */
  lemma ReadingIsStable(raw: string)
    ensures Names(Join(Names(raw))) == Names(raw)
  {
    NamesArePlain(raw);
    NamesOfJoin(Names(raw));
  }

  // ---- Where the two readings agree ---------------------------------------------

  predicate AllTrimmed(pieces: seq<string>) {
    forall p <- pieces :: Trim(p) == p
  }

  function TotalLength(names: seq<string>): nat {
    if names == [] then 0 else |names[0]| + TotalLength(names[1..])
  }

  lemma {:induction false} TrimShortens(s: string)
    ensures |TrimLeft(s)| <= |s| && (|TrimLeft(s)| == |s| ==> TrimLeft(s) == s)
    ensures |TrimRight(s)| <= |s| && (|TrimRight(s)| == |s| ==> TrimRight(s) == s)
    ensures |Trim(s)| <= |s| && (|Trim(s)| == |s| ==> Trim(s) == s)
    decreases |s|
  {
    if s != "" {
      TrimShortens(s[1..]);
      TrimShortens(s[..|s| - 1]);
    }
    var t := TrimLeft(s);
    if |t| < |s| {
      TrimShortens(t);
    }
  }

  lemma {:induction false} DropEmptyKeepsLength(pieces: seq<string>)
    ensures TotalLength(DropEmpty(pieces)) == TotalLength(pieces)
  {
    if pieces != [] {
      DropEmptyKeepsLength(pieces[1..]);
      if pieces[0] != "" {
        assert DropEmpty(pieces)[1..] == DropEmpty(pieces[1..]);
      } else {
        assert DropEmpty(pieces) == DropEmpty(pieces[1..]);
      }
    }
  }

  lemma {:induction false} TrimmingLosesLength(pieces: seq<string>)
    ensures TotalLength(TrimAll(pieces)) <= TotalLength(pieces)
    ensures TotalLength(TrimAll(pieces)) == TotalLength(pieces) ==> AllTrimmed(pieces)
    ensures AllTrimmed(pieces) ==> TrimAll(pieces) == pieces
  {
    if pieces != [] {
      TrimShortens(pieces[0]);
      TrimmingLosesLength(pieces[1..]);
      assert TrimAll(pieces)[1..] == TrimAll(pieces[1..]);
      assert pieces == [pieces[0]] + pieces[1..];
    }
  }

  /** Broker and router read the same list exactly when no piece has white space around it. */
  lemma RouterReadsAsBroker(raw: string)
    ensures RouterNames(raw) == Names(raw) <==> AllTrimmed(Pieces(raw))
  {
    TrimmingLosesLength(Pieces(raw));
    DropEmptyKeepsLength(Pieces(raw));
    DropEmptyKeepsLength(TrimAll(Pieces(raw)));
  }

  lemma {:induction false} DropEmptyAppends(names: seq<string>, last: string)
    ensures DropEmpty(names + [last]) == DropEmpty(names) + if last == "" then [] else [last]
  {
    if names == [] {
      assert [last][1..] == [];
    } else {
      assert (names + [last])[1..] == names[1..] + [last];
      DropEmptyAppends(names[1..], last);
    }
  }

  lemma {:induction false} TrimAllAppends(names: seq<string>, last: string)
    ensures TrimAll(names + [last]) == TrimAll(names) + [Trim(last)]
  {
    if names == [] {
      assert [last][1..] == [];
    } else {
      assert (names + [last])[1..] == names[1..] + [last];
      TrimAllAppends(names[1..], last);
    }
  }

  method Split(raw: string) returns (stacks: seq<string>)
    ensures stacks == Names(raw)
  {
    stacks := [];
    var pieces := Pieces(raw);
    for i := 0 to |pieces|
      invariant stacks == DropEmpty(TrimAll(pieces[..i]))
    {
      assert pieces[..i + 1] == pieces[..i] + [pieces[i]];
      TrimAllAppends(pieces[..i], pieces[i]);
      DropEmptyAppends(TrimAll(pieces[..i]), Trim(pieces[i]));
      var name := Trim(pieces[i]);
      if name != "" {
        stacks := stacks + [name];
      }
    }
    assert pieces[..|pieces|] == pieces;
  }

  // ---- The fallback order --------------------------------------------------------

  function Without(names: seq<string>, self: string): seq<string> {
    if names == [] then []
    else (if names[0] == self then [] else [names[0]]) + Without(names[1..], self)
  }

  function FirstAt(names: seq<string>, self: string): (i: nat)
    requires self in names
    ensures i < |names| && names[i] == self && forall j :: 0 <= j < i ==> names[j] != self
  {
    if names[0] == self then 0 else 1 + FirstAt(names[1..], self)
  }

  /** Round the list once from behind `self`; the list as it is when `self` is not on it. */
  function Rotation(names: seq<string>, self: string): seq<string> {
    if self !in names then names
    else
      var p := FirstAt(names, self);
      Without(names[p + 1..], self) + names[..p]
  }

  lemma {:induction false} WithoutAppends(names: seq<string>, last: string, self: string)
    ensures Without(names + [last], self) == Without(names, self) + if last == self then [] else [last]
  {
    if names == [] {
      assert [last][1..] == [];
    } else {
      assert (names + [last])[1..] == names[1..] + [last];
      WithoutAppends(names[1..], last, self);
    }
  }

  /** The fallback order of `self`, and whether it is on the list. */
  method Parse(raw: string, self: string) returns (fallbacks: seq<string>, found: bool)
    ensures fallbacks == Rotation(Names(raw), self)
    ensures found <==> self in Names(raw)
  {
    var all := Split(raw);
    fallbacks, found := Rotate(all, self);
  }

  method Rotate(all: seq<string>, self: string) returns (fallbacks: seq<string>, found: bool)
    ensures fallbacks == Rotation(all, self)
    ensures found <==> self in all
  {
    var pivot := -1;
    for i := 0 to |all|
      invariant pivot == -1
      invariant forall j :: 0 <= j < i ==> all[j] != self
    {
      if all[i] == self {
        pivot := i;
        break;
      }
    }
    fallbacks := [];
    if pivot == -1 {
      fallbacks := fallbacks + all;
      return fallbacks, false;
    }
    RotationAround(all, self, pivot);
    var behind := CopyBehind(all, pivot + 1, self);
    fallbacks := behind + all[..pivot];
    found := true;
  }

  /** The entries from there on, but for those that are this stack again. */
  method CopyBehind(all: seq<string>, from: nat, self: string) returns (names: seq<string>)
    requires from <= |all|
    ensures names == Without(all[from..|all|], self)
  {
    names := [];
    for j := from to |all|
      invariant names == Without(all[from..j], self)
    {
      WithoutNext(all, from, j, self);
      if all[j] == self {
        continue;
      }
      names := names + [all[j]];
    }
  }

  lemma WithoutNext(names: seq<string>, from: nat, j: nat, self: string)
    requires from <= j < |names|
    ensures Without(names[from..j + 1], self)
            == Without(names[from..j], self) + if names[j] == self then [] else [names[j]]
  {
    assert names[from..j + 1] == names[from..j] + [names[j]];
    WithoutAppends(names[from..j], names[j], self);
  }

  lemma PivotIsFirst(names: seq<string>, self: string, pivot: nat)
    requires pivot < |names| && names[pivot] == self && forall j :: 0 <= j < pivot ==> names[j] != self
    ensures FirstAt(names, self) == pivot
  {
  }

  lemma RotationAround(names: seq<string>, self: string, pivot: nat)
    requires pivot < |names| && names[pivot] == self && forall j :: 0 <= j < pivot ==> names[j] != self
    ensures Rotation(names, self) == Without(names[pivot + 1..|names|], self) + names[..pivot]
  {
    PivotIsFirst(names, self, pivot);
    assert names[pivot + 1..|names|] == names[pivot + 1..];
  }

  lemma {:induction false} WithoutDropsOnlySelf(names: seq<string>, self: string)
    ensures multiset(Without(names, self)) == multiset(names)[self := 0]
    ensures self !in Without(names, self)
    ensures self !in names ==> Without(names, self) == names
  {
    if names != [] {
      WithoutDropsOnlySelf(names[1..], self);
      assert names == [names[0]] + names[1..];
    }
  }

  lemma DropOne(before: multiset<string>, behind: multiset<string>, self: string)
    requires self !in before
    ensures (before + multiset{self} + behind)[self := 0] == behind[self := 0] + before
  {
  }

  lemma CutAround(names: seq<string>, p: nat)
    requires p < |names|
    ensures multiset(names) == multiset(names[..p]) + multiset{names[p]} + multiset(names[p + 1..])
  {
    assert names == names[..p] + [names[p]] + names[p + 1..];
  }

  /** For any list: the order never has `self` in it, and everything else as often as the list has it. */
  lemma RotationKeepsTheOthers(names: seq<string>, self: string)
    ensures self !in Rotation(names, self) && (self !in names ==> Rotation(names, self) == names)
    ensures multiset(Rotation(names, self)) == multiset(names)[self := 0]
  {
    if self in names {
      var p := FirstAt(names, self);
      var before, behind := names[..p], names[p + 1..];
      WithoutDropsOnlySelf(behind, self);
      assert Rotation(names, self) == Without(behind, self) + before;
      assert self !in before;
      CutAround(names, p);
      DropOne(multiset(before), multiset(behind), self);
    }
  }

  predicate Distinct(names: seq<string>) {
    forall i, j :: 0 <= i < j < |names| ==> names[i] != names[j]
  }

  lemma RotationOfDistinct(names: seq<string>, i: nat)
    requires Distinct(names) && i < |names|
    ensures Rotation(names, names[i]) == names[i + 1..] + names[..i]
  {
    PivotIsFirst(names, names[i], i);
    WithoutDropsOnlySelf(names[i + 1..], names[i]);
  }

  /** Position m on the list, counting on from its beginning past its end. */
  function Round(m: nat, n: nat): nat
    requires m < 2 * n
  {
    if m < n then m else m - n
  }

  /** Entry k of stack i's order is the stack k + 1 places further round. */
  lemma RotationAt(names: seq<string>, i: nat, k: nat)
    requires Distinct(names) && i < |names| && k < |names| - 1
    ensures |Rotation(names, names[i])| == |names| - 1
    ensures Rotation(names, names[i])[k] == names[Round(i + 1 + k, |names|)]
  {
    RotationOfDistinct(names, i);
  }

  predicate NamesAt(names: seq<string>, self: string, k: nat, target: string) {
    k < |Rotation(names, self)| && Rotation(names, self)[k] == target
  }

  lemma SameEntrySameStack(names: seq<string>, k: nat, s: string, t: string, target: string)
    requires Distinct(names) && k < |names| - 1 && s in names && t in names
    requires NamesAt(names, s, k, target) && NamesAt(names, t, k, target)
    ensures s == t
  {
    var n := |names|;
    var i, j := FirstAt(names, s), FirstAt(names, t);
    RotationAt(names, i, k);
    RotationAt(names, j, k);
    var a, b := Round(i + 1 + k, n), Round(j + 1 + k, n);
    assert names[a] == names[b];
    assert a == b;
  }

  lemma EveryStackIsNamed(names: seq<string>, k: nat, target: string) returns (s: string)
    requires Distinct(names) && k < |names| - 1 && target in names
    ensures s in names && s != target && NamesAt(names, s, k, target)
  {
    var m := FirstAt(names, target);
    var i := if m >= k + 1 then m - (k + 1) else m - (k + 1) + |names|;
    RotationAt(names, i, k);
    s := names[i];
  }

  /**
   The orders of the stacks form a Latin square: at every position no two stacks name the same
   one, and every stack is named by some other, so no stack is everybody's first resort.
   */
  lemma RotationsSpreadLoad(names: seq<string>, k: nat)
    requires Distinct(names) && k < |names| - 1
    ensures forall s <- names, t <- names, target <- names ::
              NamesAt(names, s, k, target) && NamesAt(names, t, k, target) ==> s == t
    ensures forall target <- names :: exists s <- names :: s != target && NamesAt(names, s, k, target)
  {
    forall s <- names, t <- names, target <- names | NamesAt(names, s, k, target) && NamesAt(names, t, k, target)
      ensures s == t
    {
      SameEntrySameStack(names, k, s, t, target);
    }
    forall target <- names
      ensures exists s <- names :: s != target && NamesAt(names, s, k, target)
    {
      var s := EveryStackIsNamed(names, k, target);
    }
  }
}
