/**
 * The port-forwarding (NAT) rule table of the RV6688BCM router: the rule record,
 * the `vs_list` decoder and the two encoders (a rule's dash-separated text and
 * the ordered form the save endpoint takes). The same code appears twice in the
 * client, in rvcm/nat.py and in router.py; this module models it once.
 */
module NatTable {
  import opened Wrappers
  import opened PyStr

  /** The protocol a rule forwards. */
  datatype ForwardType = TCP | UDP | BOTH {
    /** `ForwardType.value`: the numeric code the router uses. */
    function Code(): (n: int)
      ensures 1 <= n <= 3
    {
      match this
      case TCP => 1
      case UDP => 2
      case BOTH => 3
    }
  }

  /** `ForwardType(n)`: the member whose code is `n`; any other number raises ValueError. */
  function TypeOfCode(n: int): (r: Option<ForwardType>)
    ensures r.Some? <==> 1 <= n <= 3
    ensures r.Some? ==> r.value.Code() == n
  {
    if n == 1 then Some(TCP) else if n == 2 then Some(UDP) else if n == 3 then Some(BOTH) else None
  }

  /** `ForwardType(t.value) == t` */
  lemma CodeRoundTrip(t: ForwardType)
    ensures TypeOfCode(t.Code()) == Some(t)
  {
  }

  /**
   * One forwarding rule: public ports `srcMinPort..srcMaxPort` go to ports
   * `destMinPort..destMaxPort` of the LAN host whose last address octet is `destIpSec`.
   */
  datatype Forward = Forward(
    enabled: bool,
    name: string,
    srcMinPort: int,
    srcMaxPort: int,
    fwType: ForwardType,
    destMinPort: int,
    destMaxPort: int,
    destIpSec: int)

  // ---------------------------------------------------------------- encoding one rule

  /**
   * The texts between the dashes of `Forward.__str__`'s format `%s-%s-%s-%s-%s-%s-%s-%s-0-`:
   * the eight formatted values, the `0` placeholder and the empty text after the last dash.
   */
  function Columns(f: Forward): seq<string> {
    [ if f.enabled then "1" else "0",
      f.name,
      IntStr(f.srcMinPort),
      IntStr(f.srcMaxPort),
      IntStr(f.fwType.Code()),
      IntStr(f.destMinPort),
      IntStr(f.destMaxPort),
      IntStr(f.destIpSec),
      "0",
      "" ]
  }

  /** `Forward.__str__` */
  function ForwardStr(f: Forward): string {
    Join(Columns(f), '-')
  }

  /** Split on `-`, the text of a rule with a plain name and non-negative numbers gives back its eight values, the `0` placeholder and an empty tail. */
  lemma SplitForwardStr(f: Forward)
    requires Encodable(f)
    ensures SplitOn(ForwardStr(f), '-') == Columns(f)
  {
    var p := Columns(f);
    var isDash := (c: char) => c == '-';
    EncodableColumnsAvoid(f, isDash);
    forall i | 0 <= i < |p| ensures '-' !in p[i] {
      assert Avoids(p[i], isDash);
    }
    SplitJoin(p, '-');
  }

  // ---------------------------------------------------------------- encoding the table

  /** `str(f)` for every rule, in table order. */
  function RuleStrs(fs: seq<Forward>): (r: seq<string>)
    ensures |r| == |fs|
  {
    seq(|fs|, i requires 0 <= i < |fs| => ForwardStr(fs[i]))
  }

  /** The `h_vs_list` form value: the rule texts joined by `;`, plus a trailing `;`. */
  function HVsList(fs: seq<Forward>): (r: string)
    ensures r != [] && r[|r| - 1] == ';'
  {
    Join(RuleStrs(fs), ';') + ";"
  }

  const Preamble: seq<(string, string)> :=
    [("virtual_server_list", "Active Worlds"), ("vs_pc_list", "0"), ("if_list", ""), ("clear_entry_list", "")]

  const Trailer: seq<(string, string)> :=
    [("fwi_des", ""), ("todo", "save"), ("this_file", "vs.htm"), ("next_file", "vs.htm"), ("message", "")]

  /** The nine form fields of rule `f` at table position `i`. */
  function RuleEntries(i: nat, f: Forward): (r: seq<(string, string)>)
    ensures |r| == 9
  {
    var n := IntStr(i);
    [ ("enable_" + n, IntStr(if f.enabled then 1 else 0)),
      ("description_" + n, f.name),
      ("inbound_port_low_" + n, IntStr(f.srcMinPort)),
      ("inbound_port_high_" + n, IntStr(f.srcMaxPort)),
      ("type_" + n, IntStr(f.fwType.Code())),
      ("private_port_low_" + n, IntStr(f.destMinPort)),
      ("private_port_high_" + n, IntStr(f.destMaxPort)),
      ("private_ip_" + n, IntStr(f.destIpSec)),
      ("if_" + n, "0") ]
  }

  /** The per-rule part of the form, rule by rule as `enumerate` visits them. */
  function RuleFields(fs: seq<Forward>): (r: seq<(string, string)>)
    ensures |r| == 9 * |fs|
  {
    if fs == [] then []
    else RuleFields(fs[..|fs| - 1]) + RuleEntries(|fs| - 1, fs[|fs| - 1])
  }

  /** `NAT.generate_form_fields`: the key/value pairs posted to the save endpoint, in order. */
  function FormFields(fs: seq<Forward>): (r: seq<(string, string)>)
    ensures |r| == 9 * |fs| + 10
  {
    Preamble + RuleFields(fs) + ([("h_vs_list", HVsList(fs))] + Trailer)
  }

  lemma ConcatMiddle<T>(a: seq<T>, b: seq<T>, c: seq<T>, k: nat)
    requires k < |b|
    ensures (a + b + c)[|a| + k] == b[k]
  {
  }

  /** Field `j` of rule `i` sits at position `4 + 9 * i + j` of the form. */
  lemma {:induction false} FormFieldAt(fs: seq<Forward>, i: nat, j: nat)
    requires i < |fs| && j < 9
    ensures FormFields(fs)[4 + 9 * i + j] == RuleEntries(i, fs[i])[j]
  {
    RuleFieldAt(fs, i, j);
    ConcatMiddle(Preamble, RuleFields(fs), [("h_vs_list", HVsList(fs))] + Trailer, 9 * i + j);
  }

  lemma {:induction false} RuleFieldAt(fs: seq<Forward>, i: nat, j: nat)
    requires i < |fs| && j < 9
    ensures RuleFields(fs)[9 * i + j] == RuleEntries(i, fs[i])[j]
  {
    var init := fs[..|fs| - 1];
    if i < |fs| - 1 {
      RuleFieldAt(init, i, j);
      assert init[i] == fs[i];
    }
  }

  /** The form opens with the fixed preamble and closes with `h_vs_list` and the fixed trailer. */
  lemma FormFieldsFrame(fs: seq<Forward>)
    ensures FormFields(fs)[..4] == Preamble
    ensures FormFields(fs)[4 + 9 * |fs|] == ("h_vs_list", HVsList(fs))
    ensures FormFields(fs)[5 + 9 * |fs|..] == Trailer
  {
    ConcatFrame(Preamble, RuleFields(fs), ("h_vs_list", HVsList(fs)), Trailer);
  }

  lemma ConcatFrame<T>(a: seq<T>, b: seq<T>, x: T, c: seq<T>)
    ensures (a + b + ([x] + c))[..|a|] == a
    ensures (a + b + ([x] + c))[|a| + |b|] == x
    ensures (a + b + ([x] + c))[|a| + |b| + 1..] == c
  {
  }

  /** The per-rule form values agree with the rule's `h_vs_list` text column by column, the `0` placeholder included. */
  lemma RuleEntriesMatchColumns(i: nat, f: Forward, j: nat)
    requires j < 9
    ensures RuleEntries(i, f)[j].1 == Columns(f)[j]
  {
    assert IntStr(1) == "1" && IntStr(0) == "0";
  }

  // ---------------------------------------------------------------- decoding

  /** `int(opt[k])` */
  function IntField(opt: seq<string>, k: nat): Result<int, PyError> {
    if k >= |opt| then Err(IndexError) else IntOf(opt[k])
  }

  /** One iteration of the loop in `NAT.parse`: split on `-`, then convert the fields. */
  function DecodeRule(rule: string): Result<Forward, PyError> {
    DecodeFields(SplitOn(rule, '-'))
  }

  /** The field conversions of `NAT.parse`, in source order; the first one that fails raises. */
  function DecodeFields(opt: seq<string>): Result<Forward, PyError> {
    var e :- IntField(opt, 0);
    if |opt| < 2 then Err(IndexError)
    else
      var smin :- IntField(opt, 2);
      var smax :- IntField(opt, 3);
      var code :- IntField(opt, 4);
      var t := TypeOfCode(code);
      if t.None? then Err(ValueError)
      else
        var dmin :- IntField(opt, 5);
        var dmax :- IntField(opt, 6);
        var ip :- IntField(opt, 7);
        Ok(Forward(e != 0, opt[1], smin, smax, t.value, dmin, dmax, ip))
  }

  /** Fields that convert: eight or more, integers where numbers go, a protocol code in 1..3. */
  predicate WellFormedFields(opt: seq<string>) {
    && |opt| >= 8
    && ParseInt(opt[0]).Some? && ParseInt(opt[2]).Some? && ParseInt(opt[3]).Some?
    && ParseInt(opt[4]).Some? && 1 <= ParseInt(opt[4]).value <= 3
    && ParseInt(opt[5]).Some? && ParseInt(opt[6]).Some? && ParseInt(opt[7]).Some?
  }

  /** Decoding a rule fails exactly when its dash-separated fields are not well formed. */
  lemma DecodeFieldsSucceedsIff(opt: seq<string>)
    ensures DecodeFields(opt).Ok? <==> WellFormedFields(opt)
  {
  }

  /** An empty segment is not a rule: `int('')` raises. */
  lemma EmptySegmentFails()
    ensures DecodeRule("") == Err(ValueError)
  {
    assert SplitOn("", '-') == [""];
    assert ParseInt("") == None;
  }

  /** The fields come from a text split on `-`, so every number a rule decodes to is non-negative. */
  lemma DecodedNumbersNonNegative(rule: string)
    requires DecodeRule(rule).Ok?
    ensures var f := DecodeRule(rule).value;
      f.srcMinPort >= 0 && f.srcMaxPort >= 0 && f.destMinPort >= 0 && f.destMaxPort >= 0 && f.destIpSec >= 0
  {
    DecodeFieldsNonNegative(SplitOn(rule, '-'));
  }

  lemma DecodeFieldsNonNegative(opt: seq<string>)
    requires DecodeFields(opt).Ok?
    requires forall k :: 0 <= k < |opt| ==> '-' !in opt[k]
    ensures var f := DecodeFields(opt).value;
      f.srcMinPort >= 0 && f.srcMaxPort >= 0 && f.destMinPort >= 0 && f.destMaxPort >= 0 && f.destIpSec >= 0
  {
    DecodeFieldsValues(opt);
    IntFieldNonNegative(opt, 2);
    IntFieldNonNegative(opt, 3);
    IntFieldNonNegative(opt, 5);
    IntFieldNonNegative(opt, 6);
    IntFieldNonNegative(opt, 7);
  }

  /** A decoded rule is made of its fields: the flag, the name and the converted numbers, in place. */
  lemma DecodeFieldsValues(opt: seq<string>)
    requires DecodeFields(opt).Ok?
    ensures IntField(opt, 2).Ok? && IntField(opt, 3).Ok? && IntField(opt, 5).Ok? && IntField(opt, 6).Ok? && IntField(opt, 7).Ok?
    ensures IntField(opt, 0).Ok? && IntField(opt, 4).Ok? && TypeOfCode(IntField(opt, 4).value).Some?
    ensures DecodeFields(opt).value == Forward(IntField(opt, 0).value != 0, opt[1], IntField(opt, 2).value,
      IntField(opt, 3).value, TypeOfCode(IntField(opt, 4).value).value, IntField(opt, 5).value,
      IntField(opt, 6).value, IntField(opt, 7).value)
  {
  }

  lemma IntFieldNonNegative(opt: seq<string>, k: nat)
    requires k < |opt| && '-' !in opt[k] && IntField(opt, k).Ok?
    ensures IntField(opt, k).value >= 0
  {
    ParseIntNoMinus(opt[k]);
  }

  /** The loop of `NAT.parse`: every segment decoded in order; the first failure is the one raised. */
  function DecodeRules(segs: seq<string>): (r: Result<seq<Forward>, PyError>)
    ensures r.Ok? ==> |r.value| == |segs|
  {
    MapUntilError(segs, DecodeRule)
  }

  const VsListPrefix := "var vs_list"

  /** The first line that starts with `var vs_list`, if any. */
  function FirstVsList(lines: seq<string>): (r: Option<string>)
    ensures r.Some? ==> r.value in lines && StartsWith(r.value, VsListPrefix)
  {
    if lines == [] then None
    else if StartsWith(lines[0], VsListPrefix) then Some(lines[0])
    else FirstVsList(lines[1..])
  }

  /** The rule texts `NAT.parse` iterates over: the found line without its first 15 and last 3 characters, split on `;`. */
  function RuleSegments(data: string): seq<string> {
    match FirstVsList(SplitLines(data))
    case None => []
    case Some(line) => SplitOn(Slice(line, 15, -3), ';')
  }

  /** The rule table `NAT.parse` builds from a page, or the error it raises. */
  function Decode(data: string): Result<seq<Forward>, PyError> {
    DecodeRules(RuleSegments(data))
  }

  /** No line starting with `var vs_list`: nothing is found. */
  lemma {:induction false} FirstVsListAbsent(lines: seq<string>)
    requires forall j :: 0 <= j < |lines| ==> !StartsWith(lines[j], VsListPrefix)
    ensures FirstVsList(lines) == None
  {
    if lines != [] {
      FirstVsListAbsent(lines[1..]);
    }
  }

  /** A page without a `var vs_list` line parses to an empty table. */
  lemma NoVsListEmptyTable(data: string)
    requires forall j :: 0 <= j < |SplitLines(data)| ==> !StartsWith(SplitLines(data)[j], VsListPrefix)
    ensures Decode(data) == Ok([])
  {
    FirstVsListAbsent(SplitLines(data));
  }

  /** Only the first `var vs_list` line counts: lines after it are never read. */
  lemma {:induction false} FirstVsListFirst(lines: seq<string>, k: nat)
    requires k < |lines| && StartsWith(lines[k], VsListPrefix)
    requires forall j :: 0 <= j < k ==> !StartsWith(lines[j], VsListPrefix)
    ensures FirstVsList(lines) == Some(lines[k])
  {
    if k > 0 {
      FirstVsListFirst(lines[1..], k - 1);
    }
  }

  /** The page line the router renders for the table whose saved `h_vs_list` is `h`. */
  function VsListLine(h: string): string {
    "var vs_list = \"" + h + "\";"
  }

  // ---------------------------------------------------------------- round trip

  /** A rule whose text survives the `-`/`;`/line splitting: a plain name and non-negative numbers. */
  predicate Encodable(f: Forward) {
    && '-' !in f.name && ';' !in f.name && Avoids(f.name, IsLineBreak)
    && f.srcMinPort >= 0 && f.srcMaxPort >= 0 && f.destMinPort >= 0 && f.destMaxPort >= 0 && f.destIpSec >= 0
  }

  lemma EncodableColumnsAvoid(f: Forward, bad: char -> bool)
    requires Encodable(f)
    requires forall c :: IsDigit(c) ==> !bad(c)
    requires Avoids(f.name, bad)
    ensures forall i :: 0 <= i < |Columns(f)| ==> Avoids(Columns(f)[i], bad)
  {
    var p := Columns(f);
    NatStrAvoids(f.srcMinPort, bad);
    NatStrAvoids(f.srcMaxPort, bad);
    NatStrAvoids(f.fwType.Code(), bad);
    NatStrAvoids(f.destMinPort, bad);
    NatStrAvoids(f.destMaxPort, bad);
    NatStrAvoids(f.destIpSec, bad);
    assert p[0] == "1" || p[0] == "0";
  }

  /** A rule text free of `;` and line breaks, for an encodable rule. */
  lemma ForwardStrAvoids(f: Forward, bad: char -> bool)
    requires Encodable(f) && !bad('-')
    requires forall c :: IsDigit(c) ==> !bad(c)
    requires Avoids(f.name, bad)
    ensures Avoids(ForwardStr(f), bad)
  {
    EncodableColumnsAvoid(f, bad);
    JoinAvoids(Columns(f), '-', bad);
  }

  /** Fields that convert, with a protocol code in 1..3, decode to the rule they spell. */
  lemma DecodeFieldsOfInts(opt: seq<string>, e: int, smin: int, smax: int, code: int, dmin: int, dmax: int, ip: int)
    requires |opt| >= 8 && TypeOfCode(code).Some?
    requires IntField(opt, 0) == Ok(e) && IntField(opt, 2) == Ok(smin) && IntField(opt, 3) == Ok(smax)
    requires IntField(opt, 4) == Ok(code) && IntField(opt, 5) == Ok(dmin) && IntField(opt, 6) == Ok(dmax)
    requires IntField(opt, 7) == Ok(ip)
    ensures DecodeFields(opt) == Ok(Forward(e != 0, opt[1], smin, smax, TypeOfCode(code).value, dmin, dmax, ip))
  {
  }

  lemma IntFieldOfIntStr(opt: seq<string>, k: nat, v: int)
    requires k < |opt| && opt[k] == IntStr(v)
    ensures IntField(opt, k) == Ok(v)
  {
    ParseIntStr(v);
  }

  /** Fields holding an enable flag and numerals decode to the rule they spell. */
  lemma DecodeNumerals(opt: seq<string>, enabled: bool, smin: int, smax: int, t: ForwardType, dmin: int, dmax: int, ip: int)
    requires |opt| >= 8 && opt[0] == (if enabled then "1" else "0")
    requires opt[2] == IntStr(smin) && opt[3] == IntStr(smax) && opt[4] == IntStr(t.Code())
    requires opt[5] == IntStr(dmin) && opt[6] == IntStr(dmax) && opt[7] == IntStr(ip)
    ensures DecodeFields(opt) == Ok(Forward(enabled, opt[1], smin, smax, t, dmin, dmax, ip))
  {
    var e := if enabled then 1 else 0;
    assert IntStr(1) == "1" && IntStr(0) == "0";
    IntFieldOfIntStr(opt, 0, e);
    IntFieldOfIntStr(opt, 2, smin);
    IntFieldOfIntStr(opt, 3, smax);
    IntFieldOfIntStr(opt, 4, t.Code());
    IntFieldOfIntStr(opt, 5, dmin);
    IntFieldOfIntStr(opt, 6, dmax);
    IntFieldOfIntStr(opt, 7, ip);
    CodeRoundTrip(t);
    DecodeFieldsOfInts(opt, e, smin, smax, t.Code(), dmin, dmax, ip);
  }

  /** The fields of a rule convert back to that rule. */
  lemma DecodeColumns(f: Forward)
    ensures DecodeFields(Columns(f)) == Ok(f)
  {
    DecodeNumerals(Columns(f), f.enabled, f.srcMinPort, f.srcMaxPort, f.fwType, f.destMinPort, f.destMaxPort, f.destIpSec);
  }

  /** Decoding the text of an encodable rule gives the rule back. */
  lemma DecodeForwardStr(f: Forward)
    requires Encodable(f)
    ensures DecodeRule(ForwardStr(f)) == Ok(f)
  {
    SplitForwardStr(f);
    DecodeColumns(f);
  }

  lemma DecodeRuleStrs(fs: seq<Forward>)
    requires forall i :: 0 <= i < |fs| ==> Encodable(fs[i])
    ensures DecodeRules(RuleStrs(fs)) == Ok(fs)
  {
    forall i | 0 <= i < |fs| ensures DecodeRule(RuleStrs(fs)[i]) == Ok(fs[i]) {
      DecodeForwardStr(fs[i]);
    }
    MapUntilErrorAllOk(RuleStrs(fs), DecodeRule, fs);
  }

  /** The segments `NAT.parse` reads from the line rendered for `body + ";"` are the `;`-separated pieces of `body`. */
  lemma VsListSegments(body: string)
    requires Avoids(body, IsLineBreak)
    ensures RuleSegments(VsListLine(body + ";")) == SplitOn(body, ';')
  {
    var line := VsListLine(body + ";");
    assert line == "var vs_list = \"" + body + ";\";";
    // the whole page is one line, and it is the `vs_list` line
    assert Avoids(line, IsLineBreak) by {
      forall k | 0 <= k < |line| ensures !IsLineBreak(line[k]) {
        if 15 <= k < 15 + |body| {
          assert line[k] == body[k - 15];
        }
      }
    }
    SplitLinesOneLine(line);
    assert line[..11] == VsListPrefix;
    // the slice leaves exactly `body`
    SliceOfFraming("var vs_list = \"", body, ";\";");
  }

  /**
   * Round trip: when the router renders a saved non-empty table back as
   * `var vs_list = "<h_vs_list>";`, `NAT.parse` gives the same rules in the same order.
   */
  lemma RoundTrip(fs: seq<Forward>)
    requires |fs| > 0
    requires forall i :: 0 <= i < |fs| ==> Encodable(fs[i])
    ensures Decode(VsListLine(HVsList(fs))) == Ok(fs)
  {
    var strs := RuleStrs(fs);
    forall i | 0 <= i < |strs| ensures Avoids(strs[i], IsLineBreak) {
      ForwardStrAvoids(fs[i], IsLineBreak);
    }
    JoinAvoids(strs, ';', IsLineBreak);
    VsListSegments(Join(strs, ';'));
    // splitting on `;` gives the rule texts back
    var isSemi := (c: char) => c == ';';
    forall i | 0 <= i < |strs| ensures ';' !in strs[i] {
      ForwardStrAvoids(fs[i], isSemi);
      assert Avoids(strs[i], isSemi);
    }
    SplitJoin(strs, ';');
    DecodeRuleStrs(fs);
  }

  /** An empty table does not survive: its `h_vs_list` is `;`, and parsing it back raises ValueError. */
  lemma EmptyTableDoesNotRoundTrip()
    ensures Decode(VsListLine(HVsList([]))) == Err(ValueError)
  {
    assert HVsList([]) == [] + ";";
    VsListSegments([]);
    assert SplitOn([], ';') == [""];
    EmptySegmentFails();
    assert [""][..0] == [];
  }

  // ---------------------------------------------------------------- the table object

  /** `NAT`: the rule table fetched from the router. */
  class NAT {
    var forwards: seq<Forward>

    /** `NAT(forwards)` */
    constructor (forwards: seq<Forward>)
      ensures this.forwards == forwards
    {
      this.forwards := forwards;
    }

    /**
     * `NAT.parse`: find the `vs_list` line, clear the table, then decode and
     * append rule by rule. On an error the rules decoded so far stay in the table.
     */
    method Parse(data: string) returns (err: Option<PyError>)
      modifies this
      ensures err.None? <==> Decode(data).Ok?
      ensures err.None? ==> Decode(data) == Ok(forwards)
      ensures err.Some? ==> Decode(data) == Err(err.value)
      ensures err.Some? ==>
        exists k :: 0 <= k < |RuleSegments(data)| && DecodeRules(RuleSegments(data)[..k]) == Ok(forwards)
          && DecodeRule(RuleSegments(data)[k]).Err?
    {
      var lines := SplitLines(data);
      var fws: seq<string> := [];
      var i := 0;
      while i < |lines|
        invariant 0 <= i <= |lines|
        invariant FirstVsList(lines) == FirstVsList(lines[i..])
      {
        if StartsWith(lines[i], VsListPrefix) {
          fws := SplitOn(Slice(lines[i], 15, -3), ';');
          break;
        }
        assert lines[i..][1..] == lines[i + 1..];
        i := i + 1;
      }
      assert fws == RuleSegments(data);
      forwards := [];
      var k := 0;
      while k < |fws|
        invariant 0 <= k <= |fws|
        invariant DecodeRules(fws[..k]) == Ok(forwards)
      {
        var r := DecodeRule(fws[k]);
        MapUntilErrorStep(fws, DecodeRule, k, forwards);
        if r.Err? {
          assert DecodeRules(fws[..k]) == Ok(forwards) && DecodeRule(fws[k]).Err?;
          return Some(r.error);
        }
        forwards := forwards + [r.value];
        k := k + 1;
      }
      assert fws[..k] == fws;
      return None;
    }
  }
}
