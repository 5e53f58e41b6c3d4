/**
 * The rule-table commands both command lines share: `enable`, `disable`,
 * `remove`, `rename` and the field-by-field `update`. Each walks the table
 * fetched from the router, changes the rules that carry a given name (names
 * need not be unique), and reports whether anything changed; that report
 * decides whether the table is posted back.
 */
module NatCommands {
  import opened Wrappers
  import opened PyStr
  import opened NatTable

  /** Some rule of `fs` is called `name`. */
  predicate HasName(fs: seq<Forward>, name: string) {
    exists i :: 0 <= i < |fs| && fs[i].name == name
  }

  // ---------------------------------------------------------------- enable / disable

  /** The table after `enable NAME` (`state` true) or `disable NAME` (`state` false). */
  function SetEnabled(fs: seq<Forward>, name: string, state: bool): (r: seq<Forward>)
    ensures |r| == |fs|
  {
    seq(|fs|, i requires 0 <= i < |fs| => if fs[i].name == name then fs[i].(enabled := state) else fs[i])
  }

  /** Some rule called `name` is not yet in `state`: the command has something to flip. */
  predicate Flips(fs: seq<Forward>, name: string, state: bool) {
    exists i :: 0 <= i < |fs| && fs[i].name == name && fs[i].enabled != state
  }

  /** `enable`/`disable` saves exactly when the table changes. */
  lemma FlipsIffChanged(fs: seq<Forward>, name: string, state: bool)
    ensures Flips(fs, name, state) <==> SetEnabled(fs, name, state) != fs
  {
    var r := SetEnabled(fs, name, state);
    if Flips(fs, name, state) {
      var i :| 0 <= i < |fs| && fs[i].name == name && fs[i].enabled != state;
      assert r[i].enabled != fs[i].enabled;
    } else {
      forall i | 0 <= i < |fs| ensures r[i] == fs[i] {
      }
      assert r == fs;
    }
  }

  /** Running the same `enable`/`disable` twice: the second run changes nothing and does not save. */
  lemma SetEnabledIdempotent(fs: seq<Forward>, name: string, state: bool)
    ensures SetEnabled(SetEnabled(fs, name, state), name, state) == SetEnabled(fs, name, state)
    ensures !Flips(SetEnabled(fs, name, state), name, state)
  {
    var r := SetEnabled(fs, name, state);
    forall i | 0 <= i < |r| ensures SetEnabled(r, name, state)[i] == r[i] {
    }
  }

  /** `disable` right after `enable` (or the reverse) ends as if only the second had run. */
  lemma SetEnabledLastWins(fs: seq<Forward>, name: string, first: bool, second: bool)
    ensures SetEnabled(SetEnabled(fs, name, first), name, second) == SetEnabled(fs, name, second)
  {
    var r := SetEnabled(SetEnabled(fs, name, first), name, second);
    forall i | 0 <= i < |fs| ensures r[i] == SetEnabled(fs, name, second)[i] {
    }
  }

  /** When every rule called `name` is in `state`, flipping them away and back restores the table. */
  lemma SetEnabledUndo(fs: seq<Forward>, name: string, state: bool)
    requires !Flips(fs, name, state)
    ensures SetEnabled(SetEnabled(fs, name, !state), name, state) == fs
  {
    var r := SetEnabled(SetEnabled(fs, name, !state), name, state);
    forall i | 0 <= i < |fs| ensures r[i] == fs[i] {
      if fs[i].name == name {
        assert fs[i].enabled == state;
      }
    }
  }

  /**
   * The `enable` and `disable` loops: each rule called `name` whose flag differs
   * from `state` is flipped in place; the answer says whether to save.
   */
  method SetEnabledCmd(table: NAT, name: string, state: bool) returns (save: bool)
    modifies table
    ensures table.forwards == SetEnabled(old(table.forwards), name, state)
    ensures save <==> Flips(old(table.forwards), name, state)
  {
    ghost var fs := table.forwards;
    save := false;
    var i := 0;
    while i < |table.forwards|
      invariant |table.forwards| == |fs| && 0 <= i <= |fs|
      invariant forall j :: 0 <= j < i ==> table.forwards[j] == SetEnabled(fs, name, state)[j]
      invariant forall j :: i <= j < |fs| ==> table.forwards[j] == fs[j]
      invariant save <==> exists j :: 0 <= j < i && fs[j].name == name && fs[j].enabled != state
    {
      var frw := table.forwards[i];
      if frw.name == name && frw.enabled != state {
        table.forwards := table.forwards[i := frw.(enabled := state)];
        save := true;
      }
      i := i + 1;
    }
    assert table.forwards == SetEnabled(fs, name, state);
  }

  // ---------------------------------------------------------------- remove

  /** The table after `remove NAME`: the rules not called `name`, in their order. */
  function Removed(fs: seq<Forward>, name: string): (r: seq<Forward>)
    ensures |r| <= |fs|
  {
    if fs == [] then []
    else
      var last := fs[|fs| - 1];
      Removed(fs[..|fs| - 1], name) + (if last.name != name then [last] else [])
  }

  /** No rule called `name` survives `remove NAME`. */
  lemma {:induction false} RemovedHasNoName(fs: seq<Forward>, name: string)
    ensures !HasName(Removed(fs, name), name)
  {
    if fs != [] {
      RemovedHasNoName(fs[..|fs| - 1], name);
    }
  }

  /** Every other rule survives as many times as it was there. */
  lemma {:induction false} RemovedKeepsOthers(fs: seq<Forward>, name: string, x: Forward)
    requires x.name != name
    ensures multiset(Removed(fs, name))[x] == multiset(fs)[x]
  {
    if fs != [] {
      var init := fs[..|fs| - 1];
      var last := fs[|fs| - 1];
      RemovedKeepsOthers(init, name, x);
      assert fs == init + [last];
      assert multiset(fs) == multiset(init) + multiset{last};
      if last.name != name {
        assert multiset(Removed(fs, name)) == multiset(Removed(init, name)) + multiset{last};
      }
    }
  }

  /** Removal works rule by rule, so the survivors keep their relative order. */
  lemma {:induction false} RemovedAppend(a: seq<Forward>, b: seq<Forward>, name: string)
    ensures Removed(a + b, name) == Removed(a, name) + Removed(b, name)
    decreases |b|
  {
    if b != [] {
      var init := b[..|b| - 1];
      RemovedAppend(a, init, name);
      assert (a + b)[..|a + b| - 1] == a + init;
    } else {
      assert a + b == a;
    }
  }

  /** `remove` saves exactly when some rule has the name, which is exactly when the table shrinks. */
  lemma {:induction false} RemovedShrinksIff(fs: seq<Forward>, name: string)
    ensures HasName(fs, name) <==> |Removed(fs, name)| < |fs|
    ensures !HasName(fs, name) ==> Removed(fs, name) == fs
  {
    if fs != [] {
      var init := fs[..|fs| - 1];
      RemovedShrinksIff(init, name);
      assert fs == init + [fs[|fs| - 1]];
      if HasName(init, name) {
        var i :| 0 <= i < |init| && init[i].name == name;
        assert fs[i].name == name;
      }
      if HasName(fs, name) && !HasName(init, name) {
        var i :| 0 <= i < |fs| && fs[i].name == name;
        assert i == |fs| - 1;
      }
    }
  }

  /** The `remove` loop: keep the other rules in a new list, then replace the table with it. */
  method RemoveCmd(table: NAT, name: string) returns (save: bool)
    modifies table
    ensures table.forwards == Removed(old(table.forwards), name)
    ensures save <==> HasName(old(table.forwards), name)
  {
    var items: seq<Forward> := [];
    save := false;
    var i := 0;
    while i < |table.forwards|
      invariant 0 <= i <= |table.forwards|
      invariant items == Removed(table.forwards[..i], name)
      invariant save <==> exists j :: 0 <= j < i && table.forwards[j].name == name
    {
      var frw := table.forwards[i];
      assert table.forwards[..i + 1][..i] == table.forwards[..i];
      if frw.name != name {
        items := items + [frw];
      } else {
        save := true;
      }
      i := i + 1;
    }
    assert table.forwards[..i] == table.forwards;
    table.forwards := items;
  }

  // ---------------------------------------------------------------- rename

  /** The table after `rename OLD NEW`: every rule called `oldName` is now called `newName`. */
  function Renamed(fs: seq<Forward>, oldName: string, newName: string): (r: seq<Forward>)
    ensures |r| == |fs|
  {
    seq(|fs|, i requires 0 <= i < |fs| => if fs[i].name == oldName then fs[i].(name := newName) else fs[i])
  }

  /** After a rename to a different name, no rule keeps the old name. */
  lemma RenamedDropsOldName(fs: seq<Forward>, oldName: string, newName: string)
    requires oldName != newName
    ensures !HasName(Renamed(fs, oldName, newName), oldName)
  {
    var r := Renamed(fs, oldName, newName);
    forall i | 0 <= i < |r| ensures r[i].name != oldName {
    }
  }

  /** A rename to a name no rule had is undone by renaming back. */
  lemma RenameBack(fs: seq<Forward>, oldName: string, newName: string)
    requires !HasName(fs, newName)
    ensures Renamed(Renamed(fs, oldName, newName), newName, oldName) == fs
  {
    var r := Renamed(Renamed(fs, oldName, newName), newName, oldName);
    forall i | 0 <= i < |fs| ensures r[i] == fs[i] {
      assert fs[i].name != newName;
    }
  }

  /** A rename to a different name changes the table exactly when some rule has the old name. */
  lemma RenameChangesIff(fs: seq<Forward>, oldName: string, newName: string)
    requires oldName != newName
    ensures HasName(fs, oldName) <==> Renamed(fs, oldName, newName) != fs
  {
    var r := Renamed(fs, oldName, newName);
    if HasName(fs, oldName) {
      var i :| 0 <= i < |fs| && fs[i].name == oldName;
      assert r[i].name != fs[i].name;
    } else {
      forall i | 0 <= i < |fs| ensures r[i] == fs[i] {
      }
      assert r == fs;
    }
  }

  /** The `rename` loop: every match is renamed in place, and any match means a save. */
  method RenameCmd(table: NAT, oldName: string, newName: string) returns (save: bool)
    modifies table
    ensures table.forwards == Renamed(old(table.forwards), oldName, newName)
    ensures save <==> HasName(old(table.forwards), oldName)
  {
    ghost var fs := table.forwards;
    save := false;
    var i := 0;
    while i < |table.forwards|
      invariant |table.forwards| == |fs| && 0 <= i <= |fs|
      invariant forall j :: 0 <= j < i ==> table.forwards[j] == Renamed(fs, oldName, newName)[j]
      invariant forall j :: i <= j < |fs| ==> table.forwards[j] == fs[j]
      invariant save <==> exists j :: 0 <= j < i && fs[j].name == oldName
    {
      var frw := table.forwards[i];
      if frw.name == oldName {
        save := true;
        table.forwards := table.forwards[i := frw.(name := newName)];
      }
      i := i + 1;
    }
    assert table.forwards == Renamed(fs, oldName, newName);
  }

  // ---------------------------------------------------------------- update

  /** The optional new values an `update` supplies; `None` is an option left out. */
  datatype Patch = Patch(
    destMaxPort: Option<int>,
    destMinPort: Option<int>,
    srcMinPort: Option<int>,
    srcMaxPort: Option<int>,
    destIpSec: Option<int>,
    fwType: Option<ForwardType>)

  /** A rule with every supplied value written over it. */
  function Patched(f: Forward, p: Patch): Forward {
    f.(destMaxPort := p.destMaxPort.GetOr(f.destMaxPort),
       destMinPort := p.destMinPort.GetOr(f.destMinPort),
       srcMinPort := p.srcMinPort.GetOr(f.srcMinPort),
       srcMaxPort := p.srcMaxPort.GetOr(f.srcMaxPort),
       destIpSec := p.destIpSec.GetOr(f.destIpSec),
       fwType := p.fwType.GetOr(f.fwType))
  }

  /** Some supplied value differs from the rule's: one of the `... is not None and ... != ...` tests holds. */
  predicate Differs(f: Forward, p: Patch) {
    || (p.destMaxPort.Some? && f.destMaxPort != p.destMaxPort.value)
    || (p.destMinPort.Some? && f.destMinPort != p.destMinPort.value)
    || (p.srcMinPort.Some? && f.srcMinPort != p.srcMinPort.value)
    || (p.srcMaxPort.Some? && f.srcMaxPort != p.srcMaxPort.value)
    || (p.destIpSec.Some? && f.destIpSec != p.destIpSec.value)
    || (p.fwType.Some? && f.fwType != p.fwType.value)
  }

  /** The table after `update NAME ...`: every rule called `name` patched. */
  function Updated(fs: seq<Forward>, name: string, p: Patch): (r: seq<Forward>)
    ensures |r| == |fs|
  {
    seq(|fs|, i requires 0 <= i < |fs| => if fs[i].name == name then Patched(fs[i], p) else fs[i])
  }

  /** Some rule called `name` has a supplied value that differs. */
  predicate UpdateSaves(fs: seq<Forward>, name: string, p: Patch) {
    exists i :: 0 <= i < |fs| && fs[i].name == name && Differs(fs[i], p)
  }

  /** Patching changes a rule exactly when a supplied value differs from it. */
  lemma PatchedChangesIff(f: Forward, p: Patch)
    ensures Patched(f, p) != f <==> Differs(f, p)
  {
    if Differs(f, p) {
      var g := Patched(f, p);
      assert g.destMaxPort != f.destMaxPort || g.destMinPort != f.destMinPort || g.srcMinPort != f.srcMinPort
        || g.srcMaxPort != f.srcMaxPort || g.destIpSec != f.destIpSec || g.fwType != f.fwType;
    }
  }

  /** `update` saves exactly when the table changes. */
  lemma UpdateSavesIffChanged(fs: seq<Forward>, name: string, p: Patch)
    ensures UpdateSaves(fs, name, p) <==> Updated(fs, name, p) != fs
  {
    var r := Updated(fs, name, p);
    if UpdateSaves(fs, name, p) {
      var i :| 0 <= i < |fs| && fs[i].name == name && Differs(fs[i], p);
      PatchedChangesIff(fs[i], p);
      assert r[i] != fs[i];
    } else {
      forall i | 0 <= i < |fs| ensures r[i] == fs[i] {
        PatchedChangesIff(fs[i], p);
      }
      assert r == fs;
    }
  }

  /** Running the same `update` twice: the second run changes nothing and does not save. */
  lemma UpdateIdempotent(fs: seq<Forward>, name: string, p: Patch)
    ensures Updated(Updated(fs, name, p), name, p) == Updated(fs, name, p)
    ensures !UpdateSaves(Updated(fs, name, p), name, p)
  {
    var r := Updated(fs, name, p);
    forall i | 0 <= i < |r| ensures Updated(r, name, p)[i] == r[i] && !(r[i].name == name && Differs(r[i], p)) {
    }
  }

  /** An update with non-negative values keeps every rule encodable, so the saved table still round-trips. */
  lemma UpdateKeepsEncodable(fs: seq<Forward>, name: string, p: Patch)
    requires forall i :: 0 <= i < |fs| ==> Encodable(fs[i])
    requires p.destMaxPort.GetOr(0) >= 0 && p.destMinPort.GetOr(0) >= 0 && p.destIpSec.GetOr(0) >= 0
    requires p.srcMinPort.GetOr(0) >= 0 && p.srcMaxPort.GetOr(0) >= 0
    ensures forall i :: 0 <= i < |fs| ==> Encodable(Updated(fs, name, p)[i])
  {
  }

  /** One `if value is not None and field != value` test of the `update` loop: the field's new value, and whether it moved. */
  method SetIfGiven<T(==)>(current: T, given: Option<T>) returns (r: T, changed: bool)
    ensures r == given.GetOr(current)
    ensures changed <==> given.Some? && current != given.value
  {
    r, changed := current, false;
    if given.Some? && current != given.value {
      r, changed := given.value, true;
    }
  }

  /**
   * The body of the `update` loop for one matching rule: each supplied value
   * that differs from the field is written over it, in the source's order.
   */
  method PatchRule(f: Forward, p: Patch) returns (g: Forward, changed: bool)
    ensures g == Patched(f, p)
    ensures changed <==> Differs(f, p)
  {
    var destMax, c1 := SetIfGiven(f.destMaxPort, p.destMaxPort);
    var destMin, c2 := SetIfGiven(f.destMinPort, p.destMinPort);
    var srcMin, c3 := SetIfGiven(f.srcMinPort, p.srcMinPort);
    var srcMax, c4 := SetIfGiven(f.srcMaxPort, p.srcMaxPort);
    var ipSec, c5 := SetIfGiven(f.destIpSec, p.destIpSec);
    var fwType, c6 := SetIfGiven(f.fwType, p.fwType);
    g := f.(destMaxPort := destMax, destMinPort := destMin, srcMinPort := srcMin, srcMaxPort := srcMax,
            destIpSec := ipSec, fwType := fwType);
    changed := c1 || c2 || c3 || c4 || c5 || c6;
  }

  /**
   * The `update` loop: every rule called `name` is patched in place, and any
   * value that differed means a save.
   */
  method UpdateCmd(table: NAT, name: string, p: Patch) returns (save: bool)
    modifies table
    ensures table.forwards == Updated(old(table.forwards), name, p)
    ensures save <==> UpdateSaves(old(table.forwards), name, p)
  {
    ghost var fs := table.forwards;
    save := false;
    var i := 0;
    while i < |table.forwards|
      invariant |table.forwards| == |fs| && 0 <= i <= |fs|
      invariant forall j :: 0 <= j < i ==> table.forwards[j] == Updated(fs, name, p)[j]
      invariant forall j :: i <= j < |fs| ==> table.forwards[j] == fs[j]
      invariant save <==> exists j :: 0 <= j < i && fs[j].name == name && Differs(fs[j], p)
    {
      var frw := table.forwards[i];
      if frw.name == name {
        var changed;
        frw, changed := PatchRule(frw, p);
        save := save || changed;
        table.forwards := table.forwards[i := frw];
      }
      i := i + 1;
    }
    assert table.forwards == Updated(fs, name, p);
  }

  // ---------------------------------------------------------------- listing

  /**
   * The address column of the rule listing: the router's own LAN address with
   * its last dotted section replaced by the rule's `destIpSec`.
   */
  function TargetIp(localIp: string, destIpSec: int): string {
    var sections := SplitOn(localIp, '.');
    Join(sections[..|sections| - 1] + [IntStr(destIpSec)], '.')
  }

  /** For an address `a.b` (no dot in `b`) the listing shows `a.` followed by the rule's section. */
  lemma TargetIpReplacesLast(a: string, b: string, destIpSec: int)
    requires '.' !in b
    ensures TargetIp(a + "." + b, destIpSec) == a + "." + IntStr(destIpSec)
  {
    var sections := SplitOn(a + "." + b, '.');
    SplitBeforeLast(a, b, '.');
    assert sections[..|sections| - 1] == SplitOn(a, '.');
    JoinSnoc(SplitOn(a, '.'), IntStr(destIpSec), '.');
    JoinSplit(a, '.');
  }

  /** An address without a dot is replaced outright by the rule's section. */
  lemma TargetIpNoDot(localIp: string, destIpSec: int)
    requires '.' !in localIp
    ensures TargetIp(localIp, destIpSec) == IntStr(destIpSec)
  {
    SplitNoSep(localIp, '.');
    assert SplitOn(localIp, '.')[..0] + [IntStr(destIpSec)] == [IntStr(destIpSec)];
  }
}
