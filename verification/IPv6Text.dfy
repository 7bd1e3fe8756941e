/**
 IPv6 addresses and their text: the printer with its options and the parser, after section
 2.2 of RFC 4291 and sections 4.2 and 5 of RFC 5952.
 */
module IPv6Text {
  import opened Wrappers
  import opened Texts

  // ---- the 16 raw bytes and the eight 16-bit groups ----

  predicate IsAddress(raw: Bytes) {
    |raw| == 16
  }

  type Groups = seq<nat>

  predicate GroupsOk(g: Groups) {
    |g| == 8 && forall i :: 0 <= i < 8 ==> g[i] < 0x10000
  }

  function ToGroups(raw: Bytes): (g: Groups)
    requires IsAddress(raw)
    ensures GroupsOk(g)
  {
    seq(8, i requires 0 <= i < 8 => raw[2 * i] as nat * 256 + raw[2 * i + 1] as nat)
  }

  function Pack(g: Groups): (raw: Bytes)
    requires GroupsOk(g)
    ensures IsAddress(raw)
  {
    seq(16, i requires 0 <= i < 16 => (if i % 2 == 0 then g[i / 2] / 256 else g[i / 2] % 256) as Byte)
  }

  lemma PackToGroups(raw: Bytes)
    requires IsAddress(raw)
    ensures Pack(ToGroups(raw)) == raw
  {
    forall i | 0 <= i < 16
      ensures Pack(ToGroups(raw))[i] == raw[i]
    {
      assert ToGroups(raw)[i / 2] == raw[2 * (i / 2)] as nat * 256 + raw[2 * (i / 2) + 1] as nat;
    }
  }

  // ---- printing ----

  function Fmt(n: nat, zeroDrop: bool): string {
    if zeroDrop then Numeral(n, 16) else Padded(Numeral(n, 16))
  }

  function FmtAll(g: Groups, zeroDrop: bool): seq<string> {
    seq(|g|, i requires 0 <= i < |g| => Fmt(g[i], zeroDrop))
  }

  function DottedQuad(q: Bytes): string
    requires |q| == 4
  {
    Join(seq(4, i requires 0 <= i < 4 => Numeral(q[i] as nat, 10)), '.')
  }

  // A run of zero groups that "::" stands for.
  datatype Run = Run(pos: nat, length: nat)

  predicate ZeroRun(g: Groups, r: Run) {
    0 < r.length && r.pos + r.length <= |g| && forall i :: r.pos <= i < r.pos + r.length ==> g[i] == 0
  }

  // The run section_drop drops: the leftmost longest one, if it is at least two groups long.
  ghost predicate Dropped(g: Groups, drop: Option<Run>) {
    match drop
    case None => forall r :: ZeroRun(g, r) ==> r.length < 2
    case Some(d) =>
      && d.length >= 2 && ZeroRun(g, d)
      && forall r :: ZeroRun(g, r) ==> r.length < d.length || (r.length == d.length && d.pos <= r.pos)
  }

  function Compose(texts: seq<string>, drop: Option<Run>): string
    requires drop.Some? ==> drop.value.pos + drop.value.length <= |texts|
  {
    match drop
    case None => Join(texts, ':')
    case Some(d) => Join(texts[..d.pos], ':') + "::" + Join(texts[d.pos + d.length..], ':')
  }

  // The groups the printer shows: in mixed notation the last two are placeholders until
  // finalize replaces them.
  function Shown(raw: Bytes, mixed: bool): (g: Groups)
    requires IsAddress(raw)
    ensures GroupsOk(g)
  {
    if mixed then ToGroups(raw)[..6] + [1, 1] else ToGroups(raw)
  }

  function Finalize(raw: Bytes, mixed: bool, s: string): string
    requires IsAddress(raw)
  {
    if mixed then BeforeLast(BeforeLast(s, ':'), ':') + ":" + DottedQuad(raw[12..]) else s
  }

  function Render(raw: Bytes, mixed: bool, zeroDrop: bool, drop: Option<Run>): string
    requires IsAddress(raw)
    requires drop.Some? ==> drop.value.pos + drop.value.length <= 8
  {
    Finalize(raw, mixed, Compose(FmtAll(Shown(raw, mixed), zeroDrop), drop))
  }

  // is_ipv4_mapped: ::ffff:0:0/96
  predicate IsIPv4Mapped(raw: Bytes)
    requires IsAddress(raw)
  {
    ToGroups(raw)[..6] == [0, 0, 0, 0, 0, 0xffff]
  }

  predicate UsesMixed(raw: Bytes, ipv4: Option<bool>)
    requires IsAddress(raw)
  {
    ipv4 == Some(true) || (ipv4 == None && IsIPv4Mapped(raw))
  }

  const MAPPED_PREFIX: Bytes := [0, 0, 0, 0, 0, 0, 0, 0, 0, 0, 0xff, 0xff]

  // A group in lower case: without leading zeros, or with as many as make four digits.
  predicate PrintedGroup(s: string, zeroDrop: bool) {
    LowerHex(s) && if zeroDrop then |s| == 1 || (s != "" && s[0] != '0') else |s| == 4
  }

  // Between the colons of a text for n parts nothing stands where drop is, and only there.
  predicate Laid(segs: seq<string>, n: nat, drop: Option<Run>) {
    match drop
    case None => |segs| == n && forall i :: 0 <= i < n ==> segs[i] != ""
    case Some(d) =>
      var before, after := d.pos, n - d.pos - d.length;
      && |segs| > before + after && after >= 0
      && forall i :: 0 <= i < |segs| ==> (segs[i] == "" <==> before <= i < |segs| - after)
  }

  // Which of the n parts segment i is.
  function PartAt(segments: nat, n: nat, drop: Option<Run>, i: int): int {
    match drop
    case None => i
    case Some(d) => if i < d.pos then i else n - (segments - i)
  }

  // Four decimal numbers without leading zeros.
  predicate IsQuad(s: string, q: Bytes)
    requires |q| == 4
  {
    var parts := Split(s, '.');
    && |parts| == 4
    && forall k :: 0 <= k < 4 ==>
         ParseNumber(parts[k], 10) == Some(q[k] as nat) && (|parts[k]| == 1 || (parts[k] != "" && parts[k][0] != '0'))
  }

  // Part j of the address: the dotted quad, or a group with its two bytes.
  predicate PrintedPart(s: string, raw: Bytes, mixed: bool, zeroDrop: bool, j: nat)
    requires IsAddress(raw) && j < if mixed then 7 else 8
  {
    if mixed && j == 6 then IsQuad(s, raw[12..])
    else PrintedGroup(s, zeroDrop) && ParseNumber(s, 16) == Some(raw[2 * j] as nat * 256 + raw[2 * j + 1] as nat)
  }

  // What can be read off the text: which parts of the address stand where, how they are
  // printed, that in mixed notation alone the last one is a dotted quad, and that what is
  // dropped are zeros.
  predicate Printed(s: string, raw: Bytes, mixed: bool, zeroDrop: bool, drop: Option<Run>)
    requires IsAddress(raw)
  {
    var segs, n := Split(s, ':'), if mixed then 7 else 8;
    && Laid(segs, n, drop)
    && (forall i :: 0 <= i < |segs| && segs[i] != "" ==>
         var j := PartAt(|segs|, n, drop, i);
         0 <= j < n && PrintedPart(segs[i], raw, mixed, zeroDrop, j))
    && (drop.Some? ==>
         forall j :: drop.value.pos <= j < drop.value.pos + drop.value.length && j < 8 ==>
           raw[2 * j] == 0 && raw[2 * j + 1] == 0)
  }

  // to_str.  An option given as None counts as False for zero_drop and section_drop.
  method ToStr(raw: Bytes, zeroDrop: bool, sectionDrop: bool, ipv4: Option<bool>)
      returns (s: string, ghost drop: Option<Run>)
    requires IsAddress(raw)
    ensures if sectionDrop then Dropped(Shown(raw, UsesMixed(raw, ipv4)), drop) else drop == None
    ensures s == Render(raw, UsesMixed(raw, ipv4), zeroDrop, drop)
    ensures Parse(s) == Ok(raw)
    ensures Printed(s, raw, if ipv4.Some? then ipv4.value else raw[..12] == MAPPED_PREFIX, zeroDrop, drop)
  {
    var mixed := UsesMixed(raw, ipv4);
    MappedPrefix(raw);
    var o := Shown(raw, mixed);
    drop := None;
    if sectionDrop {
      var best := LongestRun(o);
      drop := best;
      if best.Some? {
        var d := best.value;
        RoundTrip(raw, mixed, zeroDrop, drop);
        RenderIsPrinted(raw, mixed, zeroDrop, drop);
        return Finalize(raw, mixed, Join(FmtAll(o, zeroDrop)[..d.pos], ':') + "::"
                                    + Join(FmtAll(o, zeroDrop)[d.pos + d.length..], ':')), drop;
      }
    }
    RoundTrip(raw, mixed, zeroDrop, drop);
    RenderIsPrinted(raw, mixed, zeroDrop, drop);
    return Finalize(raw, mixed, Join(FmtAll(o, zeroDrop), ':')), drop;
  }

  // z lists the maximal zero runs among the first i groups, left to right.
  ghost predicate RunsOf(o: Groups, i: nat, z: seq<Run>, open: bool)
    requires i <= |o|
  {
    && (forall k :: 0 <= k < |z| ==> ZeroRun(o, z[k]))
    && (forall j, k :: 0 <= j < k < |z| ==> z[j].pos < z[k].pos)
    && (forall k :: 0 <= k < |z| ==> RunEnds(o, i, z[k], open && k == |z| - 1))
    && (open ==> |z| > 0)
    && forall x :: 0 <= x < i && o[x] == 0 ==> exists k :: 0 <= k < |z| && Holds(z[k], x)
  }

  predicate Holds(r: Run, x: int) {
    r.pos <= x < r.pos + r.length
  }

  predicate RunEnds(o: Groups, i: nat, r: Run, open: bool)
    requires i <= |o|
  {
    var end := r.pos + r.length;
    if open then end == i else (end < i && o[end] != 0) || end == i == |o|
  }

  lemma RunStarts(o: Groups, i: nat, z: seq<Run>)
    requires i < |o| && o[i] == 0 && RunsOf(o, i, z, false)
    ensures RunsOf(o, i + 1, z + [Run(i, 1)], true)
  {
    var z' := z + [Run(i, 1)];
    forall k | 0 <= k < |z|
      ensures RunEnds(o, i + 1, z'[k], false) && z'[k].pos < i
    {
      assert RunEnds(o, i, z[k], false) && ZeroRun(o, z[k]);
    }
    Covered(o, i, z, z');
    assert Holds(z'[|z|], i);
  }

  lemma RunGrows(o: Groups, i: nat, z: seq<Run>)
    requires i < |o| && o[i] == 0 && RunsOf(o, i, z, true)
    ensures z != []
    ensures var last := z[|z| - 1]; RunsOf(o, i + 1, z[..|z| - 1] + [Run(last.pos, last.length + 1)], true)
  {
    var last := z[|z| - 1];
    var z' := z[..|z| - 1] + [Run(last.pos, last.length + 1)];
    assert RunEnds(o, i, last, true) && ZeroRun(o, last);
    forall k | 0 <= k < |z'|
      ensures RunEnds(o, i + 1, z'[k], k == |z'| - 1)
    {
      assert RunEnds(o, i, z[k], k == |z| - 1);
    }
    Covered(o, i, z, z');
    assert Holds(z'[|z| - 1], i);
  }

  lemma RunStops(o: Groups, i: nat, z: seq<Run>, open: bool)
    requires i < |o| && o[i] != 0 && RunsOf(o, i, z, open)
    ensures RunsOf(o, i + 1, z, false)
  {
    forall k | 0 <= k < |z|
      ensures RunEnds(o, i + 1, z[k], false)
    {
      assert RunEnds(o, i, z[k], open && k == |z| - 1);
    }
    Covered(o, i, z, z);
  }

  lemma RunsEnd(o: Groups, z: seq<Run>, open: bool)
    requires RunsOf(o, |o|, z, open)
    ensures RunsOf(o, |o|, z, false)
  {
    forall k | 0 <= k < |z|
      ensures RunEnds(o, |o|, z[k], false)
    {
      assert RunEnds(o, |o|, z[k], open && k == |z| - 1);
    }
  }

  lemma Covered(o: Groups, i: nat, z: seq<Run>, z': seq<Run>)
    requires i <= |o| && |z| <= |z'|
    requires forall k :: 0 <= k < |z| ==> z[k].pos == z'[k].pos && z[k].length <= z'[k].length
    requires forall x :: 0 <= x < i && o[x] == 0 ==> exists k :: 0 <= k < |z| && Holds(z[k], x)
    ensures forall x :: 0 <= x < i && o[x] == 0 ==> exists k :: 0 <= k < |z'| && Holds(z'[k], x)
  {
    forall x | 0 <= x < i && o[x] == 0
      ensures exists k :: 0 <= k < |z'| && Holds(z'[k], x)
    {
      var k :| 0 <= k < |z| && Holds(z[k], x);
      assert Holds(z'[k], x);
    }
  }

  // Lines 722-732.
  method ZeroRuns(o: Groups) returns (z: seq<Run>)
    ensures RunsOf(o, |o|, z, false)
  {
    hide RunsOf;
    z := [];
    var open := false;
    NoRuns(o);
    for i := 0 to |o|
      invariant RunsOf(o, i, z, open)
    {
      if o[i] == 0 {
        if !open {
          RunStarts(o, i, z);
          z, open := z + [Run(i, 1)], true;
        } else {
          RunGrows(o, i, z);
          var last := z[|z| - 1];
          z := z[..|z| - 1] + [Run(last.pos, last.length + 1)];
        }
      } else {
        RunStops(o, i, z, open);
        open := false;
      }
    }
    RunsEnd(o, z, open);
  }

  lemma NoRuns(o: Groups)
    ensures RunsOf(o, 0, [], false)
  {
  }

  // A zero run lies within one of the maximal ones.
  lemma RunInside(o: Groups, z: seq<Run>, r: Run) returns (k: nat)
    requires RunsOf(o, |o|, z, false) && ZeroRun(o, r)
    ensures k < |z| && z[k].pos <= r.pos && r.pos + r.length <= z[k].pos + z[k].length
  {
    assert o[r.pos] == 0;
    k :| 0 <= k < |z| && Holds(z[k], r.pos);
    assert RunEnds(o, |o|, z[k], false);
  }

  // Lines 734-740: the first of the longest, if it is longer than one group.
  method LongestRun(o: Groups) returns (best: Option<Run>)
    ensures Dropped(o, best)
  {
    var z := ZeroRuns(o);
    best := None;
    for k := 0 to |z|
      invariant best.None? ==> forall j :: 0 <= j < k ==> z[j].length < 2
      invariant best.Some? ==> best.value.length >= 2 && ZeroRun(o, best.value)
      invariant best.Some? ==> exists b :: 0 <= b < k && z[b] == best.value
      invariant best.Some? ==> forall j :: 0 <= j < k ==> Beats(best.value, z[j])
    {
      if z[k].length > 1 && (best.None? || z[k].length > best.value.length) {
        best := Some(z[k]);
      }
    }
    forall r | ZeroRun(o, r)
      ensures if best.None? then r.length < 2 else Beats(best.value, r)
    {
      var k := RunInside(o, z, r);
    }
  }

  predicate Beats(a: Run, b: Run) {
    b.length < a.length || (b.length == a.length && a.pos <= b.pos)
  }

  // ---- parsing ----

  datatype ParseError = BadFormat | NotANumber | IPv4CompatibleUnimplemented | BadIPv4

  // The two sides of the dropped section, read from the first segments; right tells whether
  // an empty segment has been met.
  datatype Sides = Sides(left: seq<nat>, rest: seq<nat>, right: bool)

  function ReadSegments(segs: seq<string>): Result<Sides, ParseError> {
    if segs == [] then Ok(Sides([], [], false))
    else
      match ReadSegments(segs[..|segs| - 1])
      case Err(e) => Err(e)
      case Ok(p) =>
        var s := segs[|segs| - 1];
        if s == [] then Ok(p.(right := true))
        else
          match ParseNumber(s, 16)
          case None => Err(NotANumber)
          case Some(n) =>
            if n > 0xffff then Err(BadFormat)
            else if p.right then Ok(p.(rest := p.rest + [n]))
            else Ok(p.(left := p.left + [n]))
  }

  function Zeroes(n: nat): (z: seq<nat>)
    ensures |z| == n && forall i :: 0 <= i < n ==> z[i] == 0
  {
    seq(n, i => 0)
  }

  lemma {:induction false} ReadSegmentsOk(segs: seq<string>)
    ensures ReadSegments(segs).Ok? ==>
      var p := ReadSegments(segs).value;
      && |p.left| + |p.rest| <= |segs|
      && (forall i :: 0 <= i < |p.left| ==> p.left[i] < 0x10000)
      && (forall i :: 0 <= i < |p.rest| ==> p.rest[i] < 0x10000)
  {
    if segs != [] {
      ReadSegmentsOk(segs[..|segs| - 1]);
    }
  }

  // The zeroes between the sides make up eight groups.
  function Spread(p: Sides): Groups
    requires |p.left| + |p.rest| <= 8
  {
    p.left + Zeroes(8 - |p.left| - |p.rest|) + p.rest
  }

  // Lines 489-518, without the IPv4 part.
  function ParseGroups(addr: string): Result<Groups, ParseError> {
    var segs := Split(addr, ':');
    if CountDouble(addr) > 1 || |segs| < 3 || |segs| > 8 then Err(BadFormat)
    else
      match ReadSegments(segs)
      case Err(e) => Err(e)
      case Ok(p) => ReadSegmentsOk(segs); Ok(Spread(p))
  }

  // The four-part decimal form of inet_aton.
  function ParseDottedQuad(s: string): Option<Bytes> {
    var parts := Split(s, '.');
    if |parts| == 4
       && forall i :: 0 <= i < 4 ==> IsOctet(parts[i])
    then Some(seq(4, i requires 0 <= i < 4 => ParseNumber(parts[i], 10).value as Byte))
    else None
  }

  predicate IsOctet(s: string) {
    && ParseNumber(s, 10).Some? && ParseNumber(s, 10).value < 256
    && (|s| == 1 || s[0] != '0')
  }

  function Parse(addr: string): Result<Bytes, ParseError> {
    if Free(addr, '.') then
      match ParseGroups(addr)
      case Err(e) => Err(e)
      case Ok(g) => ParseGroupsOk(addr); Ok(Pack(g))
    else if Free(addr, ':') then Err(BadFormat)
    else
      var head, ip4part := BeforeLast(addr, ':'), AfterLast(addr, ':');
      if !Free(head, '.') then Err(IPv4CompatibleUnimplemented)
      else
        match ParseGroups(head + ":0:0")
        case Err(e) => Err(e)
        case Ok(g) =>
          match ParseDottedQuad(ip4part)
          case None => Err(BadIPv4)
          case Some(q) => ParseGroupsOk(head + ":0:0"); Ok(Pack(g)[..12] + q)
  }

  lemma ParseGroupsOk(addr: string)
    ensures ParseGroups(addr).Ok? ==> GroupsOk(ParseGroups(addr).value)
  {
    ReadSegmentsOk(Split(addr, ':'));
  }

  // The constructor's loop over the segments, lines 497-510.
  method ReadSides(segs: seq<string>) returns (r: Result<Sides, ParseError>)
    ensures r == ReadSegments(segs)
  {
    var left, rest: seq<nat>, right := [], [], false;
    for i := 0 to |segs|
      invariant ReadSegments(segs[..i]) == Ok(Sides(left, rest, right))
    {
      assert segs[..i + 1][..i] == segs[..i] && segs[..i + 1][i] == segs[i];
      var s := segs[i];
      if |s| == 0 {
        right := true;
        continue;
      }
      var n := ParseNumber(s, 16);
      if n.None? || n.value > 0xffff {
        ErrorStays(segs, i + 1);
        return Err(if n.None? then NotANumber else BadFormat);
      }
      if right {
        rest := rest + [n.value];
      } else {
        left := left + [n.value];
      }
    }
    assert segs[..|segs|] == segs;
    return Ok(Sides(left, rest, right));
  }

  // The constructor on a text.
  method FromText(addr: string) returns (r: Result<Bytes, ParseError>)
    ensures r == Parse(addr)
    ensures r.Ok? ==> IsAddress(r.value)
  {
    var text, ip4part: Option<string> := addr, None;
    if !Free(addr, '.') {
      if Free(addr, ':') {
        return Err(BadFormat);
      }
      text, ip4part := BeforeLast(addr, ':'), Some(AfterLast(addr, ':'));
      if !Free(text, '.') {
        return Err(IPv4CompatibleUnimplemented);
      }
      text := text + ":0:0";
    }
    var segs := Split(text, ':');
    if CountDouble(text) > 1 || |segs| < 3 || |segs| > 8 {
      return Err(BadFormat);
    }
    var sides := ReadSides(segs);
    if sides.Err? {
      return Err(sides.error);
    }
    ReadSegmentsOk(segs);
    ParseGroupsOk(text);
    var v := Pack(Spread(sides.value));
    if ip4part.Some? {
      var q := ParseDottedQuad(ip4part.value);
      if q.None? {
        return Err(BadIPv4);
      }
      v := v[..12] + q.value;
    }
    return Ok(v);
  }

  lemma {:induction false} ErrorStays(segs: seq<string>, n: nat)
    requires n <= |segs| && ReadSegments(segs[..n]).Err?
    ensures ReadSegments(segs) == ReadSegments(segs[..n])
    decreases |segs|
  {
    if n < |segs| {
      assert segs[..|segs| - 1][..n] == segs[..n];
      ErrorStays(segs[..|segs| - 1], n);
    } else {
      assert segs[..n] == segs;
    }
  }

  // ---- parsing what was printed ----

  // Texts that denote the groups g.
  ghost predicate Denote(texts: seq<string>, g: Groups) {
    && |texts| == |g|
    && forall i :: 0 <= i < |texts| ==>
         texts[i] != [] && Free(texts[i], ':') && Free(texts[i], '.') && g[i] < 0x10000
         && ParseNumber(texts[i], 16) == Some(g[i])
  }

  lemma FmtDenotes(g: Groups, zeroDrop: bool)
    requires forall i :: 0 <= i < |g| ==> g[i] < 0x10000
    ensures Denote(FmtAll(g, zeroDrop), g)
  {
    forall i | 0 <= i < |g|
      ensures var t := Fmt(g[i], zeroDrop);
        t != [] && Free(t, ':') && Free(t, '.') && ParseNumber(t, 16) == Some(g[i])
    {
      NumeralRoundTrip(g[i], 16);
      PaddedSame(Numeral(g[i], 16));
    }
  }

  lemma {:induction false} ReadLeft(texts: seq<string>, g: Groups)
    requires Denote(texts, g)
    ensures ReadSegments(texts) == Ok(Sides(g, [], false))
  {
    if texts != [] {
      var n := |texts| - 1;
      ReadLeft(texts[..n], g[..n]);
      assert g == g[..n] + [g[n]];
    }
  }

  lemma {:induction false} ReadRight(segs: seq<string>, left: seq<nat>, texts: seq<string>, g: Groups)
    requires ReadSegments(segs) == Ok(Sides(left, [], true)) && Denote(texts, g)
    ensures ReadSegments(segs + texts) == Ok(Sides(left, g, true))
  {
    hide ParseNumber, Free;
    if texts == [] {
      assert segs + texts == segs;
    } else {
      var n := |texts| - 1;
      ReadRight(segs, left, texts[..n], g[..n]);
      assert (segs + texts)[..|segs| + n] == segs + texts[..n];
      assert g == g[..n] + [g[n]];
    }
  }

  lemma ReadEmpty(segs: seq<string>, p: Sides)
    requires ReadSegments(segs) == Ok(p)
    ensures ReadSegments(segs + [""]) == Ok(p.(right := true))
  {
    assert (segs + [""])[..|segs|] == segs;
  }

  // Both sides of "::"; an empty side shows as one more empty segment.
  lemma ReadAround(l: seq<string>, gl: Groups, r: seq<string>, gr: Groups)
    requires Denote(l, gl) && Denote(r, gr)
    ensures ReadSegments((if l == [] then [""] else l) + [""] + (if r == [] then [""] else r))
            == Ok(Sides(gl, gr, true))
  {
    ReadLeft(l, gl);
    if l == [] {
      ReadEmpty([], Sides([], [], false));
      assert [] + [""] == [""];
      ReadEmpty([""], Sides([], [], true));
    } else {
      ReadEmpty(l, Sides(gl, [], false));
    }
    var segs := (if l == [] then [""] else l) + [""];
    if r == [] {
      ReadEmpty(segs, Sides(gl, [], true));
    } else {
      ReadRight(segs, gl, r, gr);
    }
  }

  predicate GoodSegment(s: string) {
    s == "" || (ParseNumber(s, 16).Some? && ParseNumber(s, 16).value <= 0xffff)
  }

  // Segments are read exactly if all are good; otherwise the first bad one says why not: what
  // is not hexadecimal is no number, and what is has too many digits.
  lemma {:induction false} FirstBadSegment(segs: seq<string>, i: nat)
    requires i <= |segs| && forall j :: 0 <= j < i ==> GoodSegment(segs[j])
    ensures i == |segs| ==> ReadSegments(segs).Ok?
    ensures i < |segs| && !GoodSegment(segs[i]) ==>
              ReadSegments(segs) == Err(if IsHex(segs[i]) then BadFormat else NotANumber)
    decreases i
  {
    if i > 0 {
      FirstBadSegment(segs[..i - 1], i - 1);
      assert segs[..i][..i - 1] == segs[..i - 1];
      assert ReadSegments(segs[..i]).Ok?;
    }
    if i == |segs| {
      assert segs[..i] == segs;
    } else if !GoodSegment(segs[i]) {
      NumberIffHex(segs[i]);
      assert segs[..i + 1][..i] == segs[..i];
      ErrorStays(segs, i + 1);
    }
  }

  // The whole condition: two to seven colons, no second "::", and only good segments.
  lemma AcceptedIff(addr: string)
    ensures ParseGroups(addr).Ok? <==>
      && 2 <= multiset(addr)[':'] <= 7 && CountDouble(addr) <= 1
      && forall s :: s in Split(addr, ':') ==> GoodSegment(s)
  {
    hide Split, CountDouble, GoodSegment, ReadSegments;
    SplitCount(addr, ':');
    var segs := Split(addr, ':');
    if i :| 0 <= i < |segs| && !GoodSegment(segs[i]) {
      var first := FirstBad(segs, i);
      FirstBadSegment(segs, first);
    } else {
      FirstBadSegment(segs, |segs|);
    }
  }

  lemma {:induction false} FirstBad(segs: seq<string>, i: nat) returns (k: nat)
    requires i < |segs| && !GoodSegment(segs[i])
    ensures k < |segs| && !GoodSegment(segs[k]) && forall j :: 0 <= j < k ==> GoodSegment(segs[j])
  {
    hide GoodSegment;
    if j :| 0 <= j < i && !GoodSegment(segs[j]) {
      k := FirstBad(segs, j);
    } else {
      k := i;
    }
  }

  lemma SecondDoubleIsRefused(a: string, b: string, c: string)
    ensures ParseGroups(a + "::" + b + "::" + c) == Err(BadFormat)
  {
    hide Split, CountDouble;
    CountMore(a, b + "::" + c);
    CountMore(b, c);
    assert a + "::" + b + "::" + c == a + "::" + (b + "::" + c);
  }

  // What is wrong with a text that has a dot: there is no colon, a dot before the last one, or
  // nothing like an IPv4 address behind it.
  lemma DottedErrors(head: string, tail: string)
    requires Free(tail, ':')
    ensures !Free(tail, '.') ==> Parse(tail) == Err(BadFormat)
    ensures !Free(head, '.') ==> Parse(head + ":" + tail) == Err(IPv4CompatibleUnimplemented)
    ensures Free(head, '.') && !Free(tail, '.') && ParseDottedQuad(tail).None? ==>
              Parse(head + ":" + tail) == Err(if ParseGroups(head + ":0:0").Err?
                                              then ParseGroups(head + ":0:0").error else BadIPv4)
  {
    hide ParseGroups, ParseDottedQuad, BeforeLast, AfterLast;
    var s := head + [':'] + tail;
    LastSplit(head, tail, ':');
    assert s[|head|] == ':';
    assert forall i :: 0 <= i < |head| ==> s[i] == head[i];
    assert forall i :: 0 <= i < |tail| ==> s[|head| + 1 + i] == tail[i];
    assert head + ":" + tail == s;
  }

  // A text without "::" is an address exactly if it has three to eight groups; the groups that
  // are missing are zeros on the right.
  lemma ParseJoined(texts: seq<string>, g: Groups)
    requires Denote(texts, g)
    ensures ParseGroups(Join(texts, ':')) == if 3 <= |g| <= 8 then Ok(g + Zeroes(8 - |g|)) else Err(BadFormat)
  {
    hide Split, ReadSegments, CountDouble, Free, NoDouble, Join, ParseNumber;
    SplitJoin(texts, ':');
    JoinClosed(texts);
    CountNone(Join(texts, ':'));
    ReadLeft(texts, g);
    if 3 <= |g| <= 8 {
      assert Spread(Sides(g, [], false)) == g + Zeroes(8 - |g|);
    }
  }

  // The preferred form of section 2.2 of RFC 4291: eight groups of one to four digits.
  predicate PreferredForm(texts: seq<string>) {
    |texts| == 8 && forall i :: 0 <= i < 8 ==> 1 <= |texts[i]| <= 4
  }

  // The parser and that section part on three to seven groups, and on eight with a longer one.
  lemma JoinedAgreesWithRfc(texts: seq<string>, g: Groups)
    requires Denote(texts, g)
    ensures (ParseGroups(Join(texts, ':')).Ok? <==> PreferredForm(texts))
       <==> |texts| < 3 || |texts| > 8 || (|texts| == 8 && forall i :: 0 <= i < 8 ==> |texts[i]| <= 4)
    ensures PreferredForm(texts) ==> ParseGroups(Join(texts, ':')) == Ok(g)
  {
    ParseJoined(texts, g);
    assert |g| == 8 ==> g + Zeroes(0) == g;
  }

  lemma SplitAround(l: seq<string>, r: seq<string>)
    requires forall i :: 0 <= i < |l| ==> Free(l[i], ':')
    requires forall i :: 0 <= i < |r| ==> Free(r[i], ':')
    ensures Split(Join(l, ':') + "::" + Join(r, ':'), ':')
         == (if l == [] then [""] else l) + [""] + (if r == [] then [""] else r)
  {
    hide Split, Join, Free;
    var a, b := Join(l, ':'), Join(r, ':');
    SplitJoin(l, ':');
    SplitJoin(r, ':');
    SplitDouble(a, b);
  }

  lemma SplitDouble(a: string, b: string)
    ensures Split(a + "::" + b, ':') == Split(a, ':') + [""] + Split(b, ':')
  {
    hide Split;
    var rest := [':'] + b;
    assert a + "::" + b == a + [':'] + rest;
    SplitConcat(a, rest, ':');
    assert rest == [] + [':'] + b;
    SplitConcat([], b, ':');
    SplitEmpty(':');
  }

  // A dropped run of at least two groups leaves at most eight segments; one of a single group
  // does so only inside, where section 2.2 of RFC 4291 lets "::" stand for it anywhere.
  lemma ParseAround(texts: seq<string>, g: Groups, d: Run)
    requires Denote(texts, g) && |g| == 8 && ZeroRun(g, d)
    ensures ParseGroups(Compose(texts, Some(d)))
         == if d.length >= 2 || 0 < d.pos < 8 - d.length then Ok(g) else Err(BadFormat)
  {
    hide Split, ReadSegments, CountDouble, Free, NoDouble, Join, ParseNumber, Spread;
    var l, r := texts[..d.pos], texts[d.pos + d.length..];
    var gl, gr := g[..d.pos], g[d.pos + d.length..];
    JoinClosed(l);
    JoinClosed(r);
    CountOne(Join(l, ':'), Join(r, ':'));
    SplitAround(l, r);
    ReadAround(l, gl, r, gr);
    SpreadAround(g, d);
  }

  lemma SpreadAround(g: Groups, d: Run)
    requires |g| == 8 && ZeroRun(g, d)
    ensures Spread(Sides(g[..d.pos], g[d.pos + d.length..], true)) == g
  {
  }

  // A single colon at the end is taken for a section of zeros, which that section does not allow.
  lemma ParseColonAtEnd(texts: seq<string>, g: Groups)
    requires Denote(texts, g) && g != []
    ensures ParseGroups(Join(texts, ':') + [':'])
         == if 2 <= |g| <= 7 then Ok(g + Zeroes(8 - |g|)) else Err(BadFormat)
  {
    hide Split, ReadSegments, CountDouble, Free, NoDouble, Join, ParseNumber;
    var s := Join(texts, ':');
    JoinClosed(texts);
    ColonAtEnd(s);
    SplitJoin(texts, ':');
    SplitConcat(s, [], ':');
    SplitEmpty(':');
    assert s + [':'] + [] == s + [':'];
    ReadLeft(texts, g);
    ReadEmpty(texts, Sides(g, [], false));
    if 2 <= |g| <= 7 {
      assert Spread(Sides(g, [], true)) == g + Zeroes(8 - |g|);
    }
  }

  // So is one at the start.
  lemma ParseColonAtStart(texts: seq<string>, g: Groups)
    requires Denote(texts, g) && g != []
    ensures ParseGroups([':'] + Join(texts, ':'))
         == if 2 <= |g| <= 7 then Ok(Zeroes(8 - |g|) + g) else Err(BadFormat)
  {
    hide Split, ReadSegments, CountDouble, Free, Join, ParseNumber;
    var s := Join(texts, ':');
    JoinClosed(texts);
    assert NoDouble([':'] + s) by {
      assert ([':'] + s)[1..] == s;
    }
    CountNone([':'] + s);
    SplitJoin(texts, ':');
    SplitConcat([], s, ':');
    SplitEmpty(':');
    assert [] + [':'] + s == [':'] + s;
    ReadNothing();
    ReadEmpty([], Sides([], [], false));
    assert [] + [""] == [""];
    ReadRight([""], [], texts, g);
    if 2 <= |g| <= 7 {
      assert Spread(Sides([], g, true)) == Zeroes(8 - |g|) + g;
    }
  }

  lemma ReadNothing()
    ensures ReadSegments([]) == Ok(Sides([], [], false))
  {
  }

  lemma DottedQuadRoundTrip(q: Bytes)
    requires |q| == 4
    ensures ParseDottedQuad(DottedQuad(q)) == Some(q)
    ensures Free(DottedQuad(q), ':') && !Free(DottedQuad(q), '.')
  {
    var parts := seq(4, i requires 0 <= i < 4 => Numeral(q[i] as nat, 10));
    forall i | 0 <= i < 4
      ensures Free(parts[i], '.') && Free(parts[i], ':') && IsOctet(parts[i])
      ensures ParseNumber(parts[i], 10) == Some(q[i] as nat)
    {
      NumeralRoundTrip(q[i] as nat, 10);
      NumeralHead(q[i] as nat, 10);
    }
    SplitJoin(parts, '.');
    JoinFree(parts, '.', ':');
    var r := ParseDottedQuad(DottedQuad(q));
    assert Split(DottedQuad(q), '.') == parts;
    assert r.Some? && r.value == q;
    assert DottedQuad(q) == parts[0] + ['.'] + Join(parts[1..], '.');
    assert DottedQuad(q)[|parts[0]|] == '.';
  }

  // What precedes the last two groups.
  function Prefix(texts: seq<string>, drop: Option<Run>): string
    requires |texts| == 6
    requires drop.Some? ==> drop.value.pos + drop.value.length <= 6
  {
    match drop
    case None => Join(texts, ':')
    case Some(d) =>
      Join(texts[..d.pos], ':')
      + (if d.pos + d.length == 6 then ":" else "::" + Join(texts[d.pos + d.length..], ':'))
  }

  lemma JoinTwo(parts: seq<string>, x: string, y: string)
    requires parts != []
    ensures Join(parts + [x, y], ':') == Join(parts, ':') + ":" + x + ":" + y
  {
    JoinAppend(parts, x, ':');
    JoinAppend(parts + [x], y, ':');
    assert parts + [x, y] == parts + [x] + [y];
  }

  lemma ComposeEnds(texts: seq<string>, drop: Option<Run>, x: string, y: string)
    requires |texts| == 6
    requires drop.Some? ==> drop.value.pos + drop.value.length <= 6
    ensures Compose(texts + [x, y], drop) == Prefix(texts, drop) + ":" + x + ":" + y
  {
    hide Join;
    var all := texts + [x, y];
    match drop
    case None =>
      JoinTwo(texts, x, y);
    case Some(d) =>
      var end := d.pos + d.length;
      assert all[..d.pos] == texts[..d.pos] && all[end..] == texts[end..] + [x, y];
      JoinPair(x, y);
      if end == 6 {
        assert texts[end..] + [x, y] == [x, y];
      } else {
        JoinTwo(texts[end..], x, y);
      }
  }

  lemma JoinPair(x: string, y: string)
    ensures Join([x, y], ':') == x + ":" + y
  {
    assert [x, y][1..] == [y];
  }

  lemma ComposeFree(texts: seq<string>, drop: Option<Run>)
    requires forall i :: 0 <= i < |texts| ==> Free(texts[i], '.')
    requires drop.Some? ==> drop.value.pos + drop.value.length <= |texts|
    ensures Free(Compose(texts, drop), '.')
  {
    JoinFree(texts, ':', '.');
    if drop.Some? {
      JoinFree(texts[..drop.value.pos], ':', '.');
      JoinFree(texts[drop.value.pos + drop.value.length..], ':', '.');
    }
  }

  lemma ParseComposed(texts: seq<string>, g: Groups, drop: Option<Run>)
    requires Denote(texts, g) && |g| == 8
    requires drop.Some? ==> ZeroRun(g, drop.value) && drop.value.length >= 2
    ensures ParseGroups(Compose(texts, drop)) == Ok(g)
  {
    if drop.None? {
      ParseJoined(texts, g);
      assert g + Zeroes(0) == g;
    } else {
      ParseAround(texts, g, drop.value);
    }
  }

  lemma PlainRoundTrip(raw: Bytes, zeroDrop: bool, drop: Option<Run>)
    requires IsAddress(raw)
    requires drop.Some? ==> ZeroRun(ToGroups(raw), drop.value) && drop.value.length >= 2
    ensures Parse(Render(raw, false, zeroDrop, drop)) == Ok(raw)
  {
    hide ParseGroups, Free, Compose, Fmt;
    var g := ToGroups(raw);
    var texts := FmtAll(g, zeroDrop);
    FmtDenotes(g, zeroDrop);
    ParseComposed(texts, g, drop);
    ComposeFree(texts, drop);
    PackToGroups(raw);
  }

  lemma MixedRoundTrip(raw: Bytes, zeroDrop: bool, drop: Option<Run>)
    requires IsAddress(raw)
    requires drop.Some? ==> ZeroRun(Shown(raw, true), drop.value) && drop.value.length >= 2
    ensures Parse(Render(raw, true, zeroDrop, drop)) == Ok(raw)
  {
    hide Parse, Compose, Finalize, ParseNumber, Fmt, Free;
    var g := ToGroups(raw)[..6];
    var texts, one := FmtAll(g, zeroDrop), Fmt(1, zeroDrop);
    FmtDenotes(g, zeroDrop);
    FmtDenotes([1], zeroDrop);
    assert FmtAll([1], zeroDrop) == [one];
    var shown := FmtAll(Shown(raw, true), zeroDrop);
    assert shown[6] == one && shown[7] == one;
    assert shown == texts + [one, one];
    if drop.Some? {
      var d := drop.value;
      assert Shown(raw, true)[6] == 1 && Shown(raw, true)[7] == 1;
      assert d.pos + d.length <= 6;
      assert forall i :: 0 <= i < 6 ==> Shown(raw, true)[i] == g[i];
    }
    MixedParses(raw, texts, g, drop, one);
  }

  lemma MixedParses(raw: Bytes, texts: seq<string>, g: Groups, drop: Option<Run>, one: string)
    requires IsAddress(raw) && g == ToGroups(raw)[..6] && |texts| == 6 && Denote(texts, g) && Free(one, ':')
    requires drop.Some? ==> drop.value.pos + drop.value.length <= 6 && ZeroRun(g, drop.value) && drop.value.length >= 2
    ensures Parse(Finalize(raw, true, Compose(texts + [one, one], drop))) == Ok(raw)
  {
    hide ParseGroups, BeforeLast, AfterLast, ParseDottedQuad, DottedQuad, Free, Denote, Compose, Prefix;
    var quad, p := DottedQuad(raw[12..]), Prefix(texts, drop);
    MixedText(raw, texts, drop, one);
    DottedQuadRoundTrip(raw[12..]);
    LastSplit(p, quad, ':');
    PrefixFree(texts, g, drop, quad);
    ComposeEnds(texts, drop, "0", "0");
    ZeroesDenote(texts, g);
    assert drop.Some? ==> ZeroRun(g + [0, 0], drop.value);
    ParseComposed(texts + ["0", "0"], g + [0, 0], drop);
    assert p + ":" + "0" + ":" + "0" == p + ":0:0";
    PackFirst(raw);
  }

  // The last two groups are replaced by the dotted quad.
  lemma MixedText(raw: Bytes, texts: seq<string>, drop: Option<Run>, one: string)
    requires IsAddress(raw) && |texts| == 6 && Free(one, ':')
    requires drop.Some? ==> drop.value.pos + drop.value.length <= 6
    ensures Finalize(raw, true, Compose(texts + [one, one], drop))
         == Prefix(texts, drop) + [':'] + DottedQuad(raw[12..])
  {
    hide BeforeLast, AfterLast, DottedQuad, Free, Compose, Prefix;
    var p := Prefix(texts, drop);
    ComposeEnds(texts, drop, one, one);
    LastSplit(p + ":" + one, one, ':');
    LastSplit(p, one, ':');
  }

  lemma PrefixFree(texts: seq<string>, g: Groups, drop: Option<Run>, quad: string)
    requires |texts| == 6 && Denote(texts, g) && !Free(quad, '.')
    requires drop.Some? ==> drop.value.pos + drop.value.length <= 6
    ensures Free(Prefix(texts, drop), '.') && !Free(Prefix(texts, drop) + [':'] + quad, '.')
  {
    JoinFree(texts, ':', '.');
    if drop.Some? {
      JoinFree(texts[..drop.value.pos], ':', '.');
      JoinFree(texts[drop.value.pos + drop.value.length..], ':', '.');
    }
    var p := Prefix(texts, drop);
    var i :| 0 <= i < |quad| && quad[i] == '.';
    assert (p + [':'] + quad)[|p| + 1 + i] == '.';
  }

  lemma ZeroesDenote(texts: seq<string>, g: Groups)
    requires Denote(texts, g)
    ensures Denote(texts + ["0", "0"], g + [0, 0])
  {
    assert ParseNumber("0", 16) == Some(0) by {
      assert DigitValue('0') == Some(0);
    }
  }

  lemma PackFirst(raw: Bytes)
    requires IsAddress(raw)
    ensures var g := ToGroups(raw)[..6] + [0, 0];
      GroupsOk(g) && Pack(g)[..12] + raw[12..] == raw
  {
    PackToGroups(raw);
    var g := ToGroups(raw)[..6] + [0, 0];
    forall i | 0 <= i < 12
      ensures Pack(g)[i] == Pack(ToGroups(raw))[i]
    {
    }
  }

  // Parsing the printed text gives the address back, whatever the options.
  lemma RoundTrip(raw: Bytes, mixed: bool, zeroDrop: bool, drop: Option<Run>)
    requires IsAddress(raw)
    requires drop.Some? ==> ZeroRun(Shown(raw, mixed), drop.value) && drop.value.length >= 2
    ensures Parse(Render(raw, mixed, zeroDrop, drop)) == Ok(raw)
  {
    if mixed {
      MixedRoundTrip(raw, zeroDrop, drop);
    } else {
      PlainRoundTrip(raw, zeroDrop, drop);
    }
  }

  // ---- how the text looks ----

  lemma MappedPrefix(raw: Bytes)
    requires IsAddress(raw)
    ensures IsIPv4Mapped(raw) <==> raw[..12] == MAPPED_PREFIX
  {
    var g := ToGroups(raw);
    if raw[..12] == MAPPED_PREFIX {
      assert forall i :: 0 <= i < 12 ==> raw[i] == raw[..12][i];
      assert g[..6] == [0, 0, 0, 0, 0, 0xffff];
    }
    if g[..6] == [0, 0, 0, 0, 0, 0xffff] {
      assert forall i :: 0 <= i < 6 ==> g[i] == g[..6][i];
      forall i | 0 <= i < 12
        ensures raw[i] == MAPPED_PREFIX[i]
      {
        assert g[i / 2] == raw[2 * (i / 2)] as nat * 256 + raw[2 * (i / 2) + 1] as nat;
      }
      assert raw[..12] == MAPPED_PREFIX;
    }
  }

  lemma FmtIsPrinted(n: nat, zeroDrop: bool)
    requires n < 0x10000
    ensures PrintedGroup(Fmt(n, zeroDrop), zeroDrop)
  {
    NumeralShort(n);
    NumeralIsLower(n, 16);
    NumeralHead(n, 16);
    PaddedIsFour(Numeral(n, 16));
  }

  // The parts of a text for these groups.
  ghost predicate GroupTexts(texts: seq<string>, g: Groups, zeroDrop: bool) {
    Denote(texts, g) && forall i :: 0 <= i < |texts| ==> PrintedGroup(texts[i], zeroDrop)
  }

  lemma FmtAllIsPrinted(g: Groups, zeroDrop: bool)
    requires forall i :: 0 <= i < |g| ==> g[i] < 0x10000
    ensures GroupTexts(FmtAll(g, zeroDrop), g, zeroDrop)
  {
    hide Fmt, Denote, PrintedGroup;
    FmtDenotes(g, zeroDrop);
    forall i | 0 <= i < |g|
      ensures PrintedGroup(FmtAll(g, zeroDrop)[i], zeroDrop)
    {
      FmtIsPrinted(g[i], zeroDrop);
    }
  }

  // Every segment of a text is empty or the part that stands there.
  ghost predicate Segments(segs: seq<string>, texts: seq<string>, drop: Option<Run>) {
    && Laid(segs, |texts|, drop)
    && forall i :: 0 <= i < |segs| && segs[i] != "" ==>
         var j := PartAt(|segs|, |texts|, drop, i);
         0 <= j < |texts| && segs[i] == texts[j]
  }

  lemma ComposedSegments(texts: seq<string>, drop: Option<Run>)
    requires texts != [] && forall i :: 0 <= i < |texts| ==> texts[i] != "" && Free(texts[i], ':')
    requires drop.Some? ==> drop.value.pos + drop.value.length <= |texts|
    ensures Segments(Split(Compose(texts, drop), ':'), texts, drop)
  {
    hide Split, Join, Free;
    match drop
    case None => SplitJoin(texts, ':');
    case Some(d) => SplitAround(texts[..d.pos], texts[d.pos + d.length..]);
  }

  lemma DroppedAreZero(raw: Bytes, mixed: bool, d: Run)
    requires IsAddress(raw) && ZeroRun(Shown(raw, mixed), d)
    ensures d.pos + d.length <= if mixed then 6 else 8
    ensures forall j :: d.pos <= j < d.pos + d.length ==> raw[2 * j] == 0 && raw[2 * j + 1] == 0
  {
    assert mixed ==> Shown(raw, true)[6] == 1 && Shown(raw, true)[7] == 1;
    forall j | d.pos <= j < d.pos + d.length
      ensures raw[2 * j] == 0 && raw[2 * j + 1] == 0
    {
      assert Shown(raw, mixed)[j] == 0 && Shown(raw, mixed)[j] == ToGroups(raw)[j];
    }
  }

  lemma RenderIsPrinted(raw: Bytes, mixed: bool, zeroDrop: bool, drop: Option<Run>)
    requires IsAddress(raw)
    requires drop.Some? ==> ZeroRun(Shown(raw, mixed), drop.value)
    ensures Printed(Render(raw, mixed, zeroDrop, drop), raw, mixed, zeroDrop, drop)
  {
    hide Split, Free, PrintedGroup, Compose, Fmt, ParseNumber, ZeroRun, IsQuad;
    var g := Shown(raw, mixed);
    var texts := FmtAll(g, zeroDrop);
    FmtAllIsPrinted(g, zeroDrop);
    if drop.Some? {
      DroppedAreZero(raw, mixed, drop.value);
    }
    if mixed {
      assert texts == texts[..6] + [Fmt(1, zeroDrop), Fmt(1, zeroDrop)];
      MixedIsPrinted(raw, texts[..6], Fmt(1, zeroDrop), zeroDrop, drop);
    } else {
      ComposedSegments(texts, drop);
      PartsArePrinted(Compose(texts, drop), texts, raw, false, zeroDrop, drop);
    }
  }

  lemma PartsArePrinted(s: string, parts: seq<string>, raw: Bytes, mixed: bool, zeroDrop: bool, drop: Option<Run>)
    requires IsAddress(raw) && |parts| == (if mixed then 7 else 8) && Segments(Split(s, ':'), parts, drop)
    requires forall j :: 0 <= j < |parts| ==> PrintedPart(parts[j], raw, mixed, zeroDrop, j)
    requires drop.Some? ==> forall j :: drop.value.pos <= j < drop.value.pos + drop.value.length && j < 8 ==>
                              raw[2 * j] == 0 && raw[2 * j + 1] == 0
    ensures Printed(s, raw, mixed, zeroDrop, drop)
  {
    hide Split, PrintedPart, Laid;
  }

  lemma MixedIsPrinted(raw: Bytes, texts: seq<string>, one: string, zeroDrop: bool, drop: Option<Run>)
    requires IsAddress(raw) && |texts| == 6 && GroupTexts(texts + [one, one], Shown(raw, true), zeroDrop)
    requires drop.Some? ==> drop.value.pos + drop.value.length <= 6
    requires drop.Some? ==> forall j :: drop.value.pos <= j < drop.value.pos + drop.value.length && j < 8 ==>
                              raw[2 * j] == 0 && raw[2 * j + 1] == 0
    ensures Printed(Finalize(raw, true, Compose(texts + [one, one], drop)), raw, true, zeroDrop, drop)
  {
    hide Split, Free, Compose, DottedQuad, Finalize, Segments, Printed, PrintedPart, PrintedGroup, ParseNumber;
    var all, quad := texts + [one, one], DottedQuad(raw[12..]);
    assert all[6] == one;
    ComposedSegments(all, drop);
    MixedSegments(raw, texts, one, drop);
    MixedParts(raw, texts, one, zeroDrop);
    QuadAtEnd(Split(Compose(all, drop), ':'), texts, one, quad, drop);
    PartsArePrinted(Finalize(raw, true, Compose(all, drop)), texts + [quad], raw, true, zeroDrop, drop);
  }

  lemma MixedParts(raw: Bytes, texts: seq<string>, one: string, zeroDrop: bool)
    requires IsAddress(raw) && |texts| == 6 && GroupTexts(texts + [one, one], Shown(raw, true), zeroDrop)
    ensures var parts := texts + [DottedQuad(raw[12..])];
      parts[6] != "" && forall j :: 0 <= j < 7 ==> PrintedPart(parts[j], raw, true, zeroDrop, j)
  {
    hide Free, PrintedGroup, ParseNumber, DottedQuad, IsQuad;
    var all, g := texts + [one, one], Shown(raw, true);
    QuadIsQuad(raw[12..]);
    forall j | 0 <= j < 6
      ensures PrintedPart(texts[j], raw, true, zeroDrop, j)
    {
      assert all[j] == texts[j] && g[j] == ToGroups(raw)[j];
    }
  }

  lemma QuadAtEnd(segs: seq<string>, texts: seq<string>, one: string, quad: string, drop: Option<Run>)
    requires |texts| == 6 && Segments(segs, texts + [one, one], drop) && |segs| >= 2 && quad != ""
    requires drop.Some? ==> drop.value.pos + drop.value.length <= 6
    ensures Segments(segs[..|segs| - 2] + [quad], texts + [quad], drop)
  {
    var shown, all, parts := segs[..|segs| - 2] + [quad], texts + [one, one], texts + [quad];
    forall i | 0 <= i < |shown| && shown[i] != ""
      ensures var j := PartAt(|shown|, 7, drop, i);
        0 <= j < 7 && shown[i] == parts[j]
    {
      if i < |shown| - 1 {
        assert shown[i] == segs[i] && PartAt(|shown|, 7, drop, i) == PartAt(|segs|, 8, drop, i);
        assert segs[i] == all[PartAt(|segs|, 8, drop, i)];
      }
    }
    assert Laid(shown, 7, drop) by {
      assert forall i :: 0 <= i < |shown| - 1 ==> shown[i] == segs[i];
      assert shown[|shown| - 1] == quad;
    }
  }

  // The two placeholders make room for the quad.
  lemma MixedSegments(raw: Bytes, texts: seq<string>, one: string, drop: Option<Run>)
    requires IsAddress(raw) && |texts| == 6 && Free(one, ':')
    requires drop.Some? ==> drop.value.pos + drop.value.length <= 6
    ensures var segs := Split(Compose(texts + [one, one], drop), ':');
      && |segs| >= 2
      && Split(Finalize(raw, true, Compose(texts + [one, one], drop)), ':')
         == segs[..|segs| - 2] + [DottedQuad(raw[12..])]
  {
    hide Split, Free, Compose, Prefix, DottedQuad, Finalize;
    var p, quad, all := Prefix(texts, drop), DottedQuad(raw[12..]), Compose(texts + [one, one], drop);
    ComposeEnds(texts, drop, one, one);
    assert all == p + [':'] + one + [':'] + one;
    SplitConcat(p + [':'] + one, one, ':');
    SplitConcat(p, one, ':');
    SplitFree(one, ':');
    var segs := Split(all, ':');
    assert segs == Split(p, ':') + [one] + [one];
    assert Split(p, ':') == segs[..|segs| - 2];
    MixedText(raw, texts, drop, one);
    DottedQuadRoundTrip(raw[12..]);
    SplitConcat(p, quad, ':');
    SplitFree(quad, ':');
  }

  lemma QuadIsQuad(q: Bytes)
    requires |q| == 4
    ensures IsQuad(DottedQuad(q), q) && DottedQuad(q) != ""
  {
    var parts := seq(4, i requires 0 <= i < 4 => Numeral(q[i] as nat, 10));
    forall i | 0 <= i < 4
      ensures Free(parts[i], '.') && ParseNumber(parts[i], 10) == Some(q[i] as nat)
      ensures |parts[i]| == 1 || (parts[i] != "" && parts[i][0] != '0')
    {
      NumeralRoundTrip(q[i] as nat, 10);
      NumeralHead(q[i] as nat, 10);
    }
    SplitJoin(parts, '.');
    DottedQuadRoundTrip(q);
  }

  // ---- an address made from an IPv4 address ----

  // The constructor parses this text for an IPv4 address.
  function TextOfIPv4(q: Bytes): string
    requires |q| == 4
  {
    "::ffff:0:0:" + DottedQuad(q)
  }

  // It ends up one group too far to the left: no IPv4 address becomes an IPv4-mapped address,
  // as section 2.5.5.2 of RFC 4291 and the constructor's own description have it.
  lemma FromIPv4IsNeverMapped(q: Bytes)
    requires |q| == 4
    ensures var raw := [0, 0, 0, 0, 0, 0, 0xff, 0xff, 0, 0, 0, 0] + q;
      Parse(TextOfIPv4(q)) == Ok(raw) && !IsIPv4Mapped(raw)
  {
    hide Parse, Join, DottedQuad, Split, Free, ZeroRun;
    var raw := [0, 0, 0, 0, 0, 0, 0xff, 0xff, 0, 0, 0, 0] + q;
    var g := ToGroups(raw)[..6];
    assert g[3] == 0xffff && raw[12..] == q;
    ZerosHere(g, Run(0, 3));
    assert ["0", "0", "0", "ffff", "0", "0"][3..] == ["ffff", "0", "0"];
    JoinThree("ffff", "0", "0");
    QuadText(raw, g, ["0", "0", "0", "ffff", "0", "0"], Run(0, 3), "ffff:0:0");
    assert "::" + "ffff:0:0" + ":" == "::ffff:0:0:";
  }

  // One zero group less gives the mapped address.
  lemma MappedText(q: Bytes)
    requires |q| == 4
    ensures var raw := [0, 0, 0, 0, 0, 0, 0, 0, 0, 0, 0xff, 0xff] + q;
      Parse("::ffff:" + DottedQuad(q)) == Ok(raw) && IsIPv4Mapped(raw)
  {
    hide Parse, DottedQuad, Split, Free, ZeroRun;
    var raw := [0, 0, 0, 0, 0, 0, 0, 0, 0, 0, 0xff, 0xff] + q;
    var g := ToGroups(raw)[..6];
    assert g == [0, 0, 0, 0, 0, 0xffff] && raw[12..] == q;
    ZerosHere(g, Run(0, 5));
    assert ["0", "0", "0", "0", "0", "ffff"][5..] == ["ffff"];
    QuadText(raw, g, ["0", "0", "0", "0", "0", "ffff"], Run(0, 5), "ffff");
    assert "::" + "ffff" + ":" == "::ffff:";
  }

  lemma ZerosHere(g: Groups, r: Run)
    requires 0 < r.length && r.pos + r.length <= |g| && forall i :: r.pos <= i < r.pos + r.length ==> g[i] == 0
    ensures ZeroRun(g, r)
  {
  }

  lemma QuadText(raw: Bytes, g: Groups, texts: seq<string>, d: Run, tail: string)
    requires IsAddress(raw) && g == ToGroups(raw)[..6] && |texts| == 6 && d.pos == 0 && 2 <= d.length < 6
    requires ZeroRun(g, d)
    requires forall i :: 0 <= i < 6 ==> (texts[i] == "0" && g[i] == 0) || (texts[i] == "ffff" && g[i] == 0xffff)
    requires Join(texts[d.length..], ':') == tail
    ensures Parse("::" + tail + ":" + DottedQuad(raw[12..])) == Ok(raw)
  {
    hide Parse, DottedQuad, BeforeLast, Join;
    ShortNumerals();
    assert Denote(texts, g);
    MixedParses(raw, texts, g, Some(d), "1");
    PrefixFromStart(texts, d);
    ComposeEnds(texts, Some(d), "1", "1");
    var p := "::" + tail;
    LastSplit(p + ":" + "1", "1", ':');
    LastSplit(p, "1", ':');
  }

  lemma PrefixFromStart(texts: seq<string>, d: Run)
    requires |texts| == 6 && d.pos == 0 && d.length < 6
    ensures Prefix(texts, Some(d)) == "::" + Join(texts[d.length..], ':')
  {
    assert texts[..0] == [];
  }

  lemma JoinThree(x: string, y: string, z: string)
    ensures Join([x, y, z], ':') == x + ":" + y + ":" + z
  {
    assert [x, y, z][1..] == [y, z] && [y, z][1..] == [z];
    assert Join([y, z], ':') == y + ":" + z;
    assert Join([x, y, z], ':') == x + [':'] + Join([y, z], ':');
  }

  lemma ShortNumerals()
    ensures ParseNumber("0", 16) == Some(0) && ParseNumber("ffff", 16) == Some(0xffff)
    ensures Free("0", ':') && Free("0", '.') && Free("ffff", ':') && Free("ffff", '.') && Free("1", ':')
  {
    assert "ffff"[..3] == "fff" && "fff"[..2] == "ff" && "ff"[..1] == "f";
    assert ParseNumber("f", 16) == Some(15);
    assert ParseNumber("ff", 16) == Some(255);
    assert ParseNumber("fff", 16) == Some(4095);
  }
}
