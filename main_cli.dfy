/**
 * The `create` and `update` commands of the argparse command line
 * (`__main__.py`). `enable`, `disable`, `remove` and `rename` there are the
 * shared loops of NatCommands.
 */
module MainCli {
  import opened Wrappers
  import opened NatTable
  import opened NatCommands

  /**
   * `create`: append a new, disabled rule to the fetched table and post it back,
   * always. The protocol argument is optional there; `BOTH` is what the caller
   * passes when it is left out.
   */
  method Create(table: NAT, name: string, minPubPort: int, maxPubPort: int, minDestPort: int, maxDestPort: int,
                target: int, protocol: ForwardType) returns (save: bool)
    modifies table
    ensures save
    ensures table.forwards ==
      old(table.forwards) + [Forward(false, name, minPubPort, maxPubPort, protocol, minDestPort, maxDestPort, target)]
  {
    var forward := Forward(name := name, destIpSec := target, srcMinPort := minPubPort, srcMaxPort := maxPubPort,
                           destMinPort := minDestPort, destMaxPort := maxDestPort, enabled := false, fwType := protocol);
    table.forwards := table.forwards + [forward];
    save := true;
  }

  /** The patch `update` applies: `--target` is parsed but has no test in the loop, so it is never supplied. */
  function MainPatch(minPubPort: Option<int>, maxPubPort: Option<int>, minDestPort: Option<int>, maxDestPort: Option<int>,
                     target: Option<int>, protocol: Option<ForwardType>): (p: Patch)
    ensures p.destIpSec == None
  {
    Patch(maxDestPort, minDestPort, minPubPort, maxPubPort, None, protocol)
  }

  /**
   * `update` as written: the shared loop over the port and protocol options;
   * the answer says whether the table was posted back.
   */
  method Update(table: NAT, name: string, minPubPort: Option<int>, maxPubPort: Option<int>, minDestPort: Option<int>,
                maxDestPort: Option<int>, target: Option<int>, protocol: Option<ForwardType>) returns (save: bool)
    modifies table
    ensures table.forwards ==
      Updated(old(table.forwards), name, MainPatch(minPubPort, maxPubPort, minDestPort, maxDestPort, target, protocol))
    ensures save <==> UpdateSaves(old(table.forwards), name, MainPatch(minPubPort, maxPubPort, minDestPort, maxDestPort, target, protocol))
  {
    save := UpdateCmd(table, name, MainPatch(minPubPort, maxPubPort, minDestPort, maxDestPort, target, protocol));
  }

  /** `update NAME --target T` leaves every rule's address as it was, whatever `T` is. */
  lemma UpdateKeepsAddress(fs: seq<Forward>, name: string, minPubPort: Option<int>, maxPubPort: Option<int>,
                           minDestPort: Option<int>, maxDestPort: Option<int>, target: Option<int>, protocol: Option<ForwardType>)
    ensures forall i :: 0 <= i < |fs| ==>
      Updated(fs, name, MainPatch(minPubPort, maxPubPort, minDestPort, maxDestPort, target, protocol))[i].destIpSec == fs[i].destIpSec
  {
  }

  /**
   * A rule at section 10 given `--target 20` and nothing else: the table stays
   * as it was and is not posted, where patching the address would move it to 20.
   */
  lemma UpdateIgnoresTarget()
    ensures var fs := [Forward(false, "web", 80, 80, TCP, 80, 80, 10)];
      && Updated(fs, "web", MainPatch(None, None, None, None, Some(20), None)) == fs
      && !UpdateSaves(fs, "web", MainPatch(None, None, None, None, Some(20), None))
      && Updated(fs, "web", Patch(None, None, None, None, Some(20), None))[0].destIpSec == 20
  {
    var fs := [Forward(false, "web", 80, 80, TCP, 80, 80, 10)];
    assert Updated(fs, "web", MainPatch(None, None, None, None, Some(20), None))[0] == fs[0];
  }
}
