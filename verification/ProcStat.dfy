/** Reading one /proc/<pid>/stat line (operator/internal/activity/proc.go). */
module ProcStat {
  import opened Wrappers
  import opened Strings

  datatype Sample = Sample(pid: int, comm: string, tty: int, startTime: int, cpu: int)

  datatype Outcome = Parsed(sample: Sample) | NoCommand | NoPid | TooFewFields | BadField(field: int)

  // Field numbers of proc_pid_stat(5); field n is at index n - 3 after the command.
  const TTY_NR := 7
  const UTIME := 14
  const STIME := 15
  const CUTIME := 16
  const CSTIME := 17
  const STARTTIME := 22

  const COUNTERS: seq<int> := [UTIME, STIME, CUTIME, CSTIME]

  /** The counter a field spells, or 0 when it spells none. */
  function Counter(fields: seq<string>, statField: int): int
    requires 3 <= statField < |fields| + 3
  {
    match ParseUint(fields[statField - 3]) case Some(v) => v case None => 0
  }

  /** The first n CPU counters added up, unbounded. */
  function Sum(fields: seq<string>, n: nat): int
    requires |fields| >= STARTTIME - 2 && n <= |COUNTERS|
  {
    if n == 0 then 0 else Sum(fields, n - 1) + Counter(fields, COUNTERS[n - 1])
  }

  /** A uint64 holds the low 64 bits. */
  function Wrap64(x: int): int { x % 0x1_0000_0000_0000_0000 }

  lemma WrapAdd(a: int, b: int)
    ensures Wrap64(Wrap64(a) + b) == Wrap64(a + b)
  {}

  /** The two outermost parentheses of a line: its first opening one, and its last closing one, which follows. */
  ghost predicate OuterPair(line: string, open: int, closed: int) {
    && 0 <= open < closed < |line| && line[open] == '(' && line[closed] == ')'
    && (forall i :: 0 <= i < open ==> line[i] != '(') && (forall i :: closed < i < |line| ==> line[i] != ')')
  }

  /** What a line says, by its two outermost parentheses. */
  ghost predicate Says(line: string, pid: int, comm: string, fields: seq<string>) {
    exists open: nat, closed: nat ::
      && OuterPair(line, open, closed)
      && ParseInt(TrimSpace(line[..open])) == Some(pid) && comm == line[open + 1..closed]
      && fields == Fields(line[closed + 1..])
  }

  /** Field numbers of proc_pid_stat(5), in the order they are read, and 0 when none is bad. */
  ghost function FirstBad(fields: seq<string>): int
    requires |fields| >= 20
  {
    if ParseInt(fields[4]).None? then 7
    else if ParseUint(fields[19]).None? then 22
    else if ParseUint(fields[11]).None? then 14
    else if ParseUint(fields[12]).None? then 15
    else if ParseUint(fields[13]).None? then 16
    else if ParseUint(fields[14]).None? then 17
    else 0
  }

  /** What is wrong with the parts of a line, or the sample they give. */
  ghost predicate Explained(pid: Option<int>, comm: string, fields: seq<string>, out: Outcome) {
    && (pid.None? ==> out == NoPid)
    && (pid.Some? && |fields| < 20 ==> out == TooFewFields)
    && (pid.Some? && |fields| >= 20 && FirstBad(fields) != 0 ==> out == BadField(FirstBad(fields)))
    && (pid.Some? && |fields| >= 20 && FirstBad(fields) == 0 ==>
          out == Parsed(Sample(pid.value, comm, ParseInt(fields[4]).value, ParseUint(fields[19]).value,
                               (ParseUint(fields[11]).value + ParseUint(fields[12]).value
                                + ParseUint(fields[13]).value + ParseUint(fields[14]).value)
                               % 0x1_0000_0000_0000_0000)))
  }

  ghost predicate Explains(line: string, out: Outcome) {
    && (out.NoCommand? <==> forall open, closed :: !OuterPair(line, open, closed))
    && forall open, closed :: OuterPair(line, open, closed) ==>
         Explained(ParseInt(TrimSpace(line[..open])), line[open + 1..closed], Fields(line[closed + 1..]), out)
  }

  /** A line has one such pair at most. */
  lemma OnePair(line: string)
    ensures var open, closed := IndexOf(line, '('), LastIndexOf(line, ')');
            && (forall a, b :: OuterPair(line, a, b) <==> 0 <= open < closed && a == open && b == closed)
            && (0 <= open <= closed ==> open < closed)
  {
    var open, closed := IndexOf(line, '('), LastIndexOf(line, ')');
    if 0 <= open < closed { assert OuterPair(line, open, closed); }
    if 0 <= open <= closed { assert line[open] == '(' && line[closed] == ')'; }
  }

  lemma CountersAdd(fields: seq<string>)
    requires |fields| >= 20 && FirstBad(fields) == 0
    ensures Sum(fields, 4) == ParseUint(fields[11]).value + ParseUint(fields[12]).value
                              + ParseUint(fields[13]).value + ParseUint(fields[14]).value
  {
    hide ParseUint, ParseInt;
    assert Sum(fields, 1) == Counter(fields, 14) && Sum(fields, 2) == Sum(fields, 1) + Counter(fields, 15);
    assert Sum(fields, 3) == Sum(fields, 2) + Counter(fields, 16);
    assert Sum(fields, 4) == Sum(fields, 3) + Counter(fields, 17);
  }

  /** The reading of a line. */
  ghost function StatOf(line: string): Option<Outcome> {
    var open, closed := IndexOf(line, '('), LastIndexOf(line, ')');
    if open < 0 || closed < open then None
    else
      var pid, fields := ParseInt(TrimSpace(line[..open])), Fields(line[closed + 1..]);
      if pid.Some? && Readable(fields) then Some(Reading(pid.value, line[open + 1..closed], fields)) else None
  }

  /** A line is read exactly when it says something readable, and what it says is unique: the
      outermost parentheses are where the name begins and ends. */
  lemma StatOfSays(line: string)
    ensures StatOf(line).Some? <==> exists pid, comm, fields :: Says(line, pid, comm, fields) && Readable(fields)
    ensures forall pid, comm, fields :: Says(line, pid, comm, fields) && Readable(fields)
              ==> StatOf(line) == Some(Reading(pid, comm, fields))
  {
    hide ParseInt, TrimSpace, Fields, Readable, Reading;
    forall pid, comm, fields | Says(line, pid, comm, fields) && Readable(fields)
      ensures StatOf(line) == Some(Reading(pid, comm, fields))
    {
      SaysIs(line, pid, comm, fields);
    }
    if StatOf(line).Some? {
      var open, closed := IndexOf(line, '('), LastIndexOf(line, ')');
      assert open < closed;
      var pid := ParseInt(TrimSpace(line[..open])).value;
      assert OuterPair(line, open, closed);
      assert Says(line, pid, line[open + 1..closed], Fields(line[closed + 1..]));
    }
  }

  lemma SaysIs(line: string, pid: int, comm: string, fields: seq<string>)
    requires Says(line, pid, comm, fields)
    ensures var open, closed := IndexOf(line, '('), LastIndexOf(line, ')');
            && 0 <= open < closed && ParseInt(TrimSpace(line[..open])) == Some(pid)
            && comm == line[open + 1..closed] && fields == Fields(line[closed + 1..])
  {
    hide ParseInt, TrimSpace, Fields;
  }

  /** parseStat: never out of range, whatever the line; the CPU total is the sum of the four
      counters, in 64 bits. */
  method ParseStat(line: string) returns (out: Outcome)
    ensures out.Parsed? <==> StatOf(line).Some?
    ensures out.Parsed? ==> StatOf(line) == Some(out)
    ensures Explains(line, out)
  {
    hide ParseInt, TrimSpace, Fields, OuterPair, Readable, Reading, FirstBad, IndexOf, LastIndexOf;
    OnePair(line);
    var open := IndexOf(line, '(');
    var closed := LastIndexOf(line, ')');
    if open < 0 || closed < open { return NoCommand; }
    assert OuterPair(line, open, closed);
    var pid := ParseInt(TrimSpace(line[..open]));
    if pid.None? { return NoPid; }
    out := ParseFields(pid.value, line[open + 1..closed], Fields(line[closed + 1..]));
  }

  method ParseFields(pid: int, comm: string, fields: seq<string>) returns (out: Outcome)
    ensures out.Parsed? <==> Readable(fields)
    ensures out.Parsed? ==> out == Reading(pid, comm, fields)
    ensures !out.NoCommand? && Explained(Some(pid), comm, fields, out)
  {
    hide ParseInt, ParseUint, Sum;
    if |fields| < STARTTIME - 2 { return TooFewFields; }
    var tty := ParseInt(fields[TTY_NR - 3]);
    if tty.None? { return BadField(TTY_NR); }
    var start := ParseUint(fields[STARTTIME - 3]);
    if start.None? { return BadField(STARTTIME); }
    if FirstBad(fields) == 0 { CountersAdd(fields); }
    var bad, ticks := AddCounters(fields);
    if bad != 0 { return BadField(bad); }
    assert ParseUint(fields[COUNTERS[0] - 3]).Some? && ParseUint(fields[COUNTERS[1] - 3]).Some?;
    assert ParseUint(fields[COUNTERS[2] - 3]).Some? && ParseUint(fields[COUNTERS[3] - 3]).Some?;
    return Parsed(Sample(pid, comm, tty.value, start.value, ticks));
  }

  /** The four counters, added as Go adds uint64s; `bad` is the first field that is no counter. */
  method AddCounters(fields: seq<string>) returns (bad: int, ticks: int)
    requires |fields| >= STARTTIME - 2
    ensures bad == 0 <==> forall j :: 0 <= j < |COUNTERS| ==> ParseUint(fields[COUNTERS[j] - 3]).Some?
    ensures bad != 0 ==>
              exists j :: 0 <= j < |COUNTERS| && bad == COUNTERS[j] && ParseUint(fields[COUNTERS[j] - 3]).None?
                && forall k :: 0 <= k < j ==> ParseUint(fields[COUNTERS[k] - 3]).Some?
    ensures bad == 0 ==> ticks == Wrap64(Sum(fields, |COUNTERS|))
  {
    hide ParseUint;
    ticks := 0;
    for i := 0 to |COUNTERS|
      invariant forall j :: 0 <= j < i ==> ParseUint(fields[COUNTERS[j] - 3]).Some?
      invariant ticks == Wrap64(Sum(fields, i))
    {
      var value := ParseUint(fields[COUNTERS[i] - 3]);
      if value.None? { return COUNTERS[i], 0; }
      WrapAdd(Sum(fields, i), value.value);
      ticks := Wrap64(ticks + value.value);
    }
    return 0, ticks;
  }

  /** What a readable line comes to. */
  ghost function Reading(pid: int, comm: string, fields: seq<string>): Outcome
    requires Readable(fields)
  {
    Parsed(Sample(pid, comm, ParseInt(fields[TTY_NR - 3]).value, ParseUint(fields[STARTTIME - 3]).value,
                  Wrap64(Sum(fields, |COUNTERS|))))
  }

  /** The six numbers parseStat needs are there and in range. */
  ghost predicate Readable(fields: seq<string>) {
    && |fields| >= STARTTIME - 2
    && ParseInt(fields[TTY_NR - 3]).Some? && ParseUint(fields[STARTTIME - 3]).Some?
    && forall j :: 0 <= j < |COUNTERS| ==> ParseUint(fields[COUNTERS[j] - 3]).Some?
  }

  // ---------------------------------------------------------------- round trip

  /** The line the kernel writes: the name in parentheses, whatever it contains. */
  function Render(pid: int, comm: string, fields: seq<string>): string {
    ItoaInt(pid) + " (" + comm + ") " + Join(fields) + "\n"
  }

  /** The fields after the name: no white space, and no parenthesis. */
  ghost predicate KernelFields(fields: seq<string>) {
    forall i :: 0 <= i < |fields| ==> IsField(fields[i]) && ')' !in fields[i]
  }

  lemma {:induction false} JoinFree(fs: seq<string>)
    requires forall i :: 0 <= i < |fs| ==> ')' !in fs[i]
    ensures ')' !in Join(fs)
  {
    if |fs| > 1 { JoinFree(fs[1..]); }
  }

  lemma ItoaIntChars(n: int)
    ensures |ItoaInt(n)| > 0 && forall i :: 0 <= i < |ItoaInt(n)| ==> IsDigit(ItoaInt(n)[i]) || ItoaInt(n)[i] == '-'
  {}

  lemma TrimOneSpace(s: string)
    requires IsField(s)
    ensures TrimSpace(s + " ") == s
  {
    assert (s + " ")[0] == s[0] && TrimLeft(s + " ") == s + " ";
    assert (s + " ")[..|s|] == s;
    assert TrimRight(s) == s;
    assert TrimRight(s + " ") == TrimRight((s + " ")[..|s|]);
  }

  /** A name between parentheses that nothing outside it has is found by the outermost pair. */
  lemma Outermost(head: string, comm: string, tail: string)
    requires '(' !in head && ')' !in tail
    ensures var line := head + "(" + comm + ")" + tail;
            var open, closed := |head|, |head| + 1 + |comm|;
            && open < closed < |line| && line[open] == '(' && line[closed] == ')'
            && (forall i :: 0 <= i < open ==> line[i] != '(') && (forall i :: closed < i < |line| ==> line[i] != ')')
            && line[..open] == head && line[open + 1..closed] == comm && line[closed + 1..] == tail
  {
    var line := head + "(" + comm + ")" + tail;
    var closed := |head| + 1 + |comm|;
    assert forall i :: 0 <= i < |head| ==> line[i] == head[i];
    assert forall i :: closed < i < |line| ==> line[i] == tail[i - closed - 1];
  }

  lemma HeadReads(pid: int)
    requires -MAX_INT64 - 1 <= pid <= MAX_INT64
    ensures '(' !in ItoaInt(pid) + " " && ParseInt(TrimSpace(ItoaInt(pid) + " ")) == Some(pid)
  {
    hide ItoaInt, ParseInt, TrimSpace;
    ItoaIntChars(pid);
    TrimOneSpace(ItoaInt(pid));
    ParseIntItoa(pid);
  }

  lemma TailReads(fields: seq<string>)
    requires KernelFields(fields)
    ensures var tail := " " + (Join(fields) + "\n"); ')' !in tail && Fields(tail) == fields
  {
    hide Fields, Join;
    JoinFree(fields);
    SkipSpace(Join(fields) + "\n");
    FieldsJoin(fields, "\n");
  }

  /** A rendered line says what it was rendered from: spaces, parentheses and newlines in the
      name shift nothing. */
  lemma RenderedSays(pid: int, comm: string, fields: seq<string>)
    requires -MAX_INT64 - 1 <= pid <= MAX_INT64 && KernelFields(fields)
    ensures Says(Render(pid, comm, fields), pid, comm, fields)
  {
    hide ParseInt, ItoaInt, Fields, TrimSpace, Join, KernelFields;
    var head, tail := ItoaInt(pid) + " ", " " + (Join(fields) + "\n");
    assert Render(pid, comm, fields) == head + "(" + comm + ")" + tail;
    HeadReads(pid);
    TailReads(fields);
    Outermost(head, comm, tail);
    assert OuterPair(Render(pid, comm, fields), |head|, |head| + 1 + |comm|);
  }

  lemma SkipSpace(s: string)
    ensures Fields(" " + s) == Fields(s)
  {
    assert (" " + s)[1..] == s;
  }

  /** parseStat of a rendered line gives back the process it describes. */
  lemma StatRoundTrip(pid: int, comm: string, fields: seq<string>, tty: int, start: nat,
                      utime: nat, stime: nat, cutime: nat, cstime: nat)
    requires -MAX_INT64 - 1 <= pid <= MAX_INT64 && KernelFields(fields) && |fields| >= 20
    requires fields[4] == ItoaInt(tty) && -MAX_INT64 - 1 <= tty <= MAX_INT64
    requires fields[19] == Itoa(start) && start <= MAX_UINT64
    requires fields[11] == Itoa(utime) && utime <= MAX_UINT64
    requires fields[12] == Itoa(stime) && stime <= MAX_UINT64
    requires fields[13] == Itoa(cutime) && cutime <= MAX_UINT64
    requires fields[14] == Itoa(cstime) && cstime <= MAX_UINT64
    ensures StatOf(Render(pid, comm, fields)) ==
            Some(Parsed(Sample(pid, comm, tty, start, (utime + stime + cutime + cstime) % 0x1_0000_0000_0000_0000)))
  {
    hide ParseInt, ParseUint, ItoaInt, Itoa, Fields, Says, Render, StatOf;
    RenderedSays(pid, comm, fields);
    StatOfSays(Render(pid, comm, fields));
    ParseIntItoa(tty);
    ParseUintItoa(start);
    ParseUintItoa(utime);
    ParseUintItoa(stime);
    ParseUintItoa(cutime);
    ParseUintItoa(cstime);
    assert Sum(fields, 4) == Sum(fields, 3) + cstime && Sum(fields, 3) == Sum(fields, 2) + cutime;
    assert Sum(fields, 2) == Sum(fields, 1) + stime && Sum(fields, 1) == Sum(fields, 0) + utime;
  }
}
