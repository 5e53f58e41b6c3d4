/**
 * The `create` and `update` commands of the click-based command line
 * (rvcm/nat.py). `enable`, `disable`, `remove` and `rename` there are the
 * shared loops of NatCommands.
 */
module ClickNat {
  import opened Wrappers
  import opened PyStr
  import opened NatTable
  import opened NatCommands

  // ---------------------------------------------------------------- create

  /** `create` accepts the address section only when its text has one to three characters: below 1000. */
  lemma SectionGuardIff(destIpSection: nat)
    ensures 0 < |IntStr(destIpSection)| <= 3 <==> destIpSection < 1000
  {
    NatStrLength(destIpSection, 3);
  }

  /**
   * `create`: refuse an address section whose text is empty or longer than three
   * characters before anything is fetched; otherwise append a new, disabled rule
   * to the fetched table and post it back. The answer says whether it was posted.
   */
  method Create(table: NAT, name: string, destIpSection: nat, minSrcPort: nat, maxSrcPort: nat,
                minDstPort: nat, maxDstPort: nat, proto: ForwardType) returns (save: bool)
    modifies table
    ensures save <==> destIpSection < 1000
    ensures table.forwards == if save
      then old(table.forwards) + [Forward(false, name, minSrcPort, maxSrcPort, proto, minDstPort, maxDstPort, destIpSection)]
      else old(table.forwards)
  {
    SectionGuardIff(destIpSection);
    var text := IntStr(destIpSection);
    if !(0 < |text| <= 3) {
      return false;
    }
    var forward := Forward(name := name, destIpSec := destIpSection, srcMinPort := minSrcPort, srcMaxPort := maxSrcPort,
                           destMinPort := minDstPort, destMaxPort := maxDstPort, enabled := false, fwType := proto);
    table.forwards := table.forwards + [forward];
    return true;
  }

  /** A rule `create` adds with a plain name survives the router page round trip. */
  lemma CreatedRuleEncodable(name: string, destIpSection: nat, minSrcPort: nat, maxSrcPort: nat,
                             minDstPort: nat, maxDstPort: nat, proto: ForwardType)
    requires Avoids(name, c => c == '-' || c == ';' || IsLineBreak(c))
    ensures Encodable(Forward(false, name, minSrcPort, maxSrcPort, proto, minDstPort, maxDstPort, destIpSection))
  {
  }

  // ---------------------------------------------------------------- update

  /**
   * The patch `update` builds from its options. `--proto` always has a value
   * (its default is `BOTH`), so the protocol is always supplied.
   */
  function ClickPatch(destIpSection: Option<int>, minSrcPort: Option<int>, maxSrcPort: Option<int>,
                      minDstPort: Option<int>, maxDstPort: Option<int>, proto: ForwardType): (p: Patch)
    ensures p.fwType == Some(proto)
  {
    Patch(maxDstPort, minDstPort, minSrcPort, maxSrcPort, destIpSection, Some(proto))
  }

  /**
   * The body of `update`'s loop for one rule called `name`, as written: the port
   * and address tests of the shared loop, then the protocol test, which compares
   * the rule's protocol with the option's text, is never equal, and so always
   * writes the option's protocol.
   */
  method PatchRuleAsWritten(f: Forward, p: Patch) returns (g: Forward)
    requires p.fwType.Some?
    ensures g == Patched(f, p)
  {
    var portsOrAddressChanged;
    g, portsOrAddressChanged := PatchRule(f, p.(fwType := None));
    g := g.(fwType := p.fwType.value);
  }

  /** `update` as written: every rule called `name` gets the options, the protocol always; any such rule means a save. */
  method Update(table: NAT, name: string, destIpSection: Option<int>, minSrcPort: Option<int>, maxSrcPort: Option<int>,
                minDstPort: Option<int>, maxDstPort: Option<int>, proto: ForwardType) returns (save: bool)
    modifies table
    ensures table.forwards ==
      Updated(old(table.forwards), name, ClickPatch(destIpSection, minSrcPort, maxSrcPort, minDstPort, maxDstPort, proto))
    ensures save <==> HasName(old(table.forwards), name)
  {
    ghost var fs := table.forwards;
    var p := ClickPatch(destIpSection, minSrcPort, maxSrcPort, minDstPort, maxDstPort, proto);
    save := false;
    var i := 0;
    while i < |table.forwards|
      invariant |table.forwards| == |fs| && 0 <= i <= |fs|
      invariant forall j :: 0 <= j < i ==> table.forwards[j] == Updated(fs, name, p)[j]
      invariant forall j :: i <= j < |fs| ==> table.forwards[j] == fs[j]
      invariant save <==> exists j :: 0 <= j < i && fs[j].name == name
    {
      var frw := table.forwards[i];
      if frw.name == name {
        frw := PatchRuleAsWritten(frw, p);
        save := true;
        table.forwards := table.forwards[i := frw];
      }
      i := i + 1;
    }
    assert table.forwards == Updated(fs, name, p);
  }

  /** With only a port given, `update` still resets a TCP rule's protocol to the default `BOTH`. */
  lemma UpdateResetsProtocol()
    ensures var fs := [Forward(true, "web", 80, 80, TCP, 8080, 8080, 10)];
      && Updated(fs, "web", ClickPatch(None, None, None, None, Some(8081), BOTH))[0].fwType == BOTH
      && Updated(fs, "web", Patch(Some(8081), None, None, None, None, None))[0].fwType == TCP
  {
  }

  /**
   * Whenever a rule has the name but no option differs from it, `update` leaves
   * the table as it was and still posts it back, where the shared loop would not.
   */
  lemma UpdateSavesUnchangedTable(fs: seq<Forward>, name: string, destIpSection: Option<int>, minSrcPort: Option<int>,
                                  maxSrcPort: Option<int>, minDstPort: Option<int>, maxDstPort: Option<int>, proto: ForwardType)
    requires HasName(fs, name)
    requires !UpdateSaves(fs, name, ClickPatch(destIpSection, minSrcPort, maxSrcPort, minDstPort, maxDstPort, proto))
    ensures Updated(fs, name, ClickPatch(destIpSection, minSrcPort, maxSrcPort, minDstPort, maxDstPort, proto)) == fs
  {
    UpdateSavesIffChanged(fs, name, ClickPatch(destIpSection, minSrcPort, maxSrcPort, minDstPort, maxDstPort, proto));
  }
}
