/** The recording parser (data/robot_data_parser.py): a JSON array of robot
    snapshots becomes a downsampled, indexable timeline plus a table of joint
    counts per robot part. */
module RobotData {
  import opened Wrappers
  import opened Dicts
  import opened PyStrings

  /** One element of a record's `parts` array: its `part` name and its
      `position.values` vector; either may be missing from the JSON. */
  datatype RawPart = RawPart(part: Option<string>, values: Option<seq<real>>)

  /** A field value as json.load yields it; `JContainer` is a list or an
      object. */
  datatype JsonValue = JInt(i: int) | JFloat(x: real) | JBool(b: bool) | JString(s: string) | JNull | JContainer

  /** One record of the recording as json.load yields it. */
  datatype RawRecord = RawRecord(sequenceId: Option<JsonValue>, timestampNs: Option<JsonValue>, parts: Option<seq<RawPart>>)

  /** One timeline entry: `{'sequence_id', 'timestamp_ns', 'parts'}`. */
  datatype Entry = Entry(sequenceId: int, timestampNs: int, parts: map<string, seq<real>>)

  /** Why loading or parsing raised: the file could not be read, the slice
      step was 0 (ValueError), a record lacked a key (KeyError), or `int()`
      rejected a field's value (ValueError or TypeError). */
  datatype ParseError = LoadFailed | ZeroStep | MissingField(field: string) | BadValue(field: string)

  /** Python's `int(x)` on a float: truncation toward zero. */
  function Truncate(x: real): (r: int)
    ensures 0.0 <= x ==> r as real <= x < r as real + 1.0
    ensures x < 0.0 ==> r as real - 1.0 < x <= r as real
  {
    if 0.0 <= x then x.Floor else -((-x).Floor)
  }

  /** `int(v)` on a decoded field value; None where Python raises. A bool
      is an int in Python, a float is truncated and a string is parsed as
      a decimal; `None`, a list and a dict raise TypeError. */
  function IntOf(v: JsonValue): (r: Option<int>)
    ensures v.JInt? ==> r == Some(v.i)
    ensures v.JBool? ==> r == Some(if v.b then 1 else 0)
    ensures v.JFloat? ==> (r.Some? &&
      (0.0 <= v.x ==> r.value as real <= v.x < r.value as real + 1.0) &&
      (v.x < 0.0 ==> r.value as real - 1.0 < v.x <= r.value as real))
    ensures v.JString? ==> r == ParseInt(v.s)
    ensures v.JNull? || v.JContainer? ==> r.None?
  {
    match v
    case JInt(i) => Some(i)
    case JFloat(x) => Some(Truncate(x))
    case JBool(b) => Some(if b then 1 else 0)
    case JString(s) => ParseInt(s)
    case JNull => None
    case JContainer => None
  }

  /** `int()` gives back the integer whether the file holds it as a number,
      as a whole float or as its decimal string. */
  lemma IntOfAgrees(n: int)
    ensures IntOf(JInt(n)) == Some(n)
    ensures IntOf(JFloat(n as real)) == Some(n)
    ensures IntOf(JString(ShowInt(n))) == Some(n)
  {
    ParseShowInt(n);
  }

  // ---------------------------------------------------------------------
  // Downsampling: `raw_data[::downsample_factor]`

  /** Every f-th element of s, starting with the first. */
  function Stride<T>(s: seq<T>, f: nat): seq<T>
    requires f >= 1
    decreases |s|
  {
    if |s| == 0 then [] else [s[0]] + (if f < |s| then Stride(s[f..], f) else [])
  }

  function Reverse<T>(s: seq<T>): (r: seq<T>)
    ensures |r| == |s|
    ensures forall i :: 0 <= i < |s| ==> r[i] == s[|s| - 1 - i]
  {
    seq(|s|, i requires 0 <= i < |s| => s[|s| - 1 - i])
  }

  /** `s[::f]` for a non-zero step: a negative step walks from the end. */
  function Downsample<T>(s: seq<T>, f: int): seq<T>
    requires f != 0
  {
    if f > 0 then Stride(s, f) else Stride(Reverse(s), -f)
  }

  /** Euclidean division is determined by its bounds. */
  lemma DivUnique(a: int, b: int, q: int)
    requires b > 0 && q * b <= a < q * b + b
    ensures a / b == q
  {
    var d, m := a / b, a % b;
    assert a == d * b + m && 0 <= m < b;
    assert (d - q) * b == a - m - q * b;
    if d - q >= 1 {
      MulAtLeast(d - q, b);
    } else if d - q <= -1 {
      MulAtLeast(q - d, b);
    }
  }

  lemma MulAtLeast(x: int, b: int)
    requires x >= 1 && b > 0
    ensures x * b >= b
  {
    assert x * b == (x - 1) * b + b;
    assert (x - 1) * b >= 0;
  }

  /** A stride of f keeps ceil(|s| / f) elements. */
  lemma {:induction false} StrideLength<T>(s: seq<T>, f: nat)
    requires f >= 1
    ensures |Stride(s, f)| == (|s| + f - 1) / f
    decreases |s|
  {
    if |s| == 0 {
      DivUnique(f - 1, f, 0);
    } else if f < |s| {
      assert |Stride(s, f)| == 1 + |Stride(s[f..], f)|;
      StrideLength(s[f..], f);
      CeilStep(|s|, f);
    } else {
      assert |Stride(s, f)| == 1;
      DivUnique(|s| + f - 1, f, 1);
    }
  }

  /** ceil(m / f) is one more than ceil((m - f) / f). */
  lemma CeilStep(m: int, f: int)
    requires f >= 1 && m > f
    ensures (m + f - 1) / f == (m - f + f - 1) / f + 1
  {
    var q := (m - 1) / f;
    DivBounds(m - 1, f);
    assert (q + 1) * f == q * f + f;
    DivUnique(m + f - 1, f, q + 1);
  }

  lemma DivBounds(a: nat, b: nat)
    requires b >= 1
    ensures (a / b) * b <= a < (a / b) * b + b
  {
  }

  /** Element i of the stride is element i * f of s. */
  lemma StrideAt<T>(s: seq<T>, f: nat, i: nat)
    requires f >= 1 && i < |Stride(s, f)|
    ensures i * f < |s| && Stride(s, f)[i] == s[i * f]
  {
    StrideAtOffset(s, f, i);
    OffsetIsProduct(i, f);
  }

  /** i * f with the multiplication unrolled into repeated addition. */
  function Offset(i: nat, f: nat): nat {
    if i == 0 then 0 else Offset(i - 1, f) + f
  }

  lemma {:induction false} OffsetIsProduct(i: nat, f: nat)
    ensures Offset(i, f) == i * f
  {
    if i > 0 {
      OffsetIsProduct(i - 1, f);
      assert i * f == (i - 1) * f + f;
    }
  }

  lemma {:induction false} StrideAtOffset<T>(s: seq<T>, f: nat, i: nat)
    requires f >= 1 && i < |Stride(s, f)|
    ensures Offset(i, f) < |s| && Stride(s, f)[i] == s[Offset(i, f)]
    decreases |s|
  {
    if i > 0 {
      assert f < |s|;
      var rest := s[f..];
      assert Stride(s, f) == [s[0]] + Stride(rest, f);
      StrideAtOffset(rest, f, i - 1);
      var j := Offset(i - 1, f);
      assert Offset(i, f) == f + j;
      assert rest[j] == s[f + j];
    }
  }

  /** With a positive step the kept records are raw records 0, f, 2f, ... in
      order: ceil(N/f) of them, the first raw record among them. */
  lemma DownsampleKeeps<T>(s: seq<T>, f: int)
    requires f >= 1
    ensures |Downsample(s, f)| == (|s| + f - 1) / f
    ensures forall i :: 0 <= i < |Downsample(s, f)| ==> i * f < |s| && Downsample(s, f)[i] == s[i * f]
    ensures |s| > 0 ==> |Downsample(s, f)| > 0 && Downsample(s, f)[0] == s[0]
  {
    StrideLength(s, f);
    forall i | 0 <= i < |Downsample(s, f)|
      ensures i * f < |s| && Downsample(s, f)[i] == s[i * f]
    {
      StrideAt(s, f, i);
    }
  }

  /** With a negative step -g the kept records run backwards from the last
      one: ceil(N/g) of them, record i being raw record N - 1 - i * g. */
  lemma DownsampleBackwards<T>(s: seq<T>, g: nat)
    requires g >= 1
    ensures |Downsample(s, -(g as int))| == (|s| + g - 1) / g
    ensures forall i :: 0 <= i < |Downsample(s, -(g as int))| ==>
      i * g < |s| && Downsample(s, -(g as int))[i] == s[|s| - 1 - i * g]
  {
    Backwards(s, g);
    StrideLength(Reverse(s), g);
    forall i | 0 <= i < |Downsample(s, -(g as int))|
      ensures i * g < |s| && Downsample(s, -(g as int))[i] == s[|s| - 1 - i * g]
    {
      ReverseStrideAt(s, g, i);
    }
  }

  lemma Backwards<T>(s: seq<T>, g: nat)
    requires g >= 1
    ensures Downsample(s, -(g as int)) == Stride(Reverse(s), g)
  {
  }

  lemma ReverseStrideAt<T>(s: seq<T>, g: nat, i: nat)
    requires g >= 1 && i < |Stride(Reverse(s), g)|
    ensures i * g < |s| && Stride(Reverse(s), g)[i] == s[|s| - 1 - i * g]
  {
    var r := Reverse(s);
    StrideAt(r, g, i);
    var k := i * g;
    assert k < |r| && Stride(r, g)[i] == r[k];
    assert r[k] == s[|s| - 1 - k];
  }

  // ---------------------------------------------------------------------
  // Parsing records

  /** The `parts` map of one entry: each part record with a `position.values`
      sets its name, a later one overwriting an earlier one; a part record
      without `part` raises KeyError. */
  function ParseParts(ps: seq<RawPart>): Result<map<string, seq<real>>, ParseError>
    decreases |ps|
  {
    if ps == [] then Success(map[])
    else
      match ParseParts(ps[..|ps| - 1])
      case Failure(e) => Failure(e)
      case Success(m) =>
        var p := ps[|ps| - 1];
        match p.part
        case None => Failure(MissingField("part"))
        case Some(n) => if p.values.Some? then Success(m[n := p.values.value]) else Success(m)
  }

  /** One record becomes one entry; the keys are read, and converted, in
      the source's order. */
  function ParseRecord(r: RawRecord): Result<Entry, ParseError> {
    if r.sequenceId.None? then Failure(MissingField("sequenceId"))
    else if IntOf(r.sequenceId.value).None? then Failure(BadValue("sequenceId"))
    else if r.timestampNs.None? then Failure(MissingField("timestampNs"))
    else if IntOf(r.timestampNs.value).None? then Failure(BadValue("timestampNs"))
    else if r.parts.None? then Failure(MissingField("parts"))
    else
      match ParseParts(r.parts.value)
      case Failure(e) => Failure(e)
      case Success(m) => Success(Entry(IntOf(r.sequenceId.value).value, IntOf(r.timestampNs.value).value, m))
  }

  /** All kept records, in order; the first failing record decides the error. */
  function ParseEntries(rs: seq<RawRecord>): Result<seq<Entry>, ParseError>
    decreases |rs|
  {
    if rs == [] then Success([])
    else
      match ParseEntries(rs[..|rs| - 1])
      case Failure(e) => Failure(e)
      case Success(es) =>
        match ParseRecord(rs[|rs| - 1])
        case Failure(e) => Failure(e)
        case Success(e) => Success(es + [e])
  }

  /** A parse of the whole recording succeeds with exactly one entry per
      kept record, entry i coming from record i. */
  lemma {:induction false} ParseEntriesShape(rs: seq<RawRecord>)
    requires ParseEntries(rs).Success?
    ensures |ParseEntries(rs).value| == |rs|
    ensures forall i :: 0 <= i < |rs| ==> ParseRecord(rs[i]) == Success(ParseEntries(rs).value[i])
    decreases |rs|
  {
    if rs != [] {
      var init := rs[..|rs| - 1];
      ParseEntriesStep(rs);
      ParseEntriesShape(init);
      var es, prev := ParseEntries(rs).value, ParseEntries(init).value;
      forall i | 0 <= i < |init|
        ensures ParseRecord(rs[i]) == Success(es[i])
      {
        assert es[i] == prev[i];
        assert init[i] == rs[i];
      }
    }
  }

  /** A successful parse extends the parse of all but the last record by
      that record's entry. */
  lemma ParseEntriesStep(rs: seq<RawRecord>)
    requires rs != [] && ParseEntries(rs).Success?
    ensures ParseEntries(rs[..|rs| - 1]).Success? && ParseRecord(rs[|rs| - 1]).Success?
    ensures ParseEntries(rs).value == ParseEntries(rs[..|rs| - 1]).value + [ParseRecord(rs[|rs| - 1]).value]
  {
  }

  /** A prefix that fails makes the whole parse fail with the same error. */
  lemma {:induction false} ParseEntriesPrefixFails(rs: seq<RawRecord>, k: nat, e: ParseError)
    requires k <= |rs| && ParseEntries(rs[..k]) == Failure(e)
    ensures ParseEntries(rs) == Failure(e)
    decreases |rs| - k
  {
    if k < |rs| {
      assert rs[..k + 1][..k] == rs[..k];
      ParseEntriesPrefixFails(rs, k + 1, e);
    } else {
      assert rs[..k] == rs;
    }
  }

  lemma {:induction false} ParsePartsPrefixFails(ps: seq<RawPart>, k: nat, e: ParseError)
    requires k <= |ps| && ParseParts(ps[..k]) == Failure(e)
    ensures ParseParts(ps) == Failure(e)
    decreases |ps| - k
  {
    if k < |ps| {
      assert ps[..k + 1][..k] == ps[..k];
      ParsePartsPrefixFails(ps, k + 1, e);
    } else {
      assert ps[..k] == ps;
    }
  }

  /** A part name is in an entry's `parts` exactly when some part record of
      that snapshot carries it with a `position.values`; its vector is the
      one of the last such record. */
  lemma {:induction false} ParsePartsPresence(ps: seq<RawPart>, n: string)
    requires ParseParts(ps).Success?
    ensures n in ParseParts(ps).value <==>
      exists j :: 0 <= j < |ps| && ps[j].part == Some(n) && ps[j].values.Some?
    ensures forall j ::
      (0 <= j < |ps| && ps[j].part == Some(n) && ps[j].values.Some? &&
       (forall j' :: j < j' < |ps| ==> !(ps[j'].part == Some(n) && ps[j'].values.Some?))) ==>
        n in ParseParts(ps).value && ParseParts(ps).value[n] == ps[j].values.value
    decreases |ps|
  {
    if ps != [] {
      var init := ps[..|ps| - 1];
      ParsePartsPresence(init, n);
      assert forall j :: 0 <= j < |init| ==> init[j] == ps[j];
    }
  }

  // ---------------------------------------------------------------------
  // Joint counts per part: `part_joint_counts`

  /** (name, length) of every part record with values, in record order. */
  function ValuedParts(ps: seq<RawPart>): seq<(string, nat)>
    decreases |ps|
  {
    if ps == [] then []
    else
      var p := ps[|ps| - 1];
      ValuedParts(ps[..|ps| - 1])
        + (if p.part.Some? && p.values.Some? then [(p.part.value, |p.values.value|)] else [])
  }

  function PartsOf(r: RawRecord): seq<RawPart> {
    r.parts.GetOr([])
  }

  /** ValuedParts of every record, record after record. */
  function Valued(rs: seq<RawRecord>): seq<(string, nat)>
    decreases |rs|
  {
    if rs == [] then [] else Valued(rs[..|rs| - 1]) + ValuedParts(PartsOf(rs[|rs| - 1]))
  }

  /** Keep the first pair for every name: `if name not in d: d[name] = n`. */
  function FirstOccurrences(xs: seq<(string, nat)>): Dict<string, nat>
    decreases |xs|
  {
    if xs == [] then []
    else
      var d := FirstOccurrences(xs[..|xs| - 1]);
      if xs[|xs| - 1].0 in Keys(d) then d else d + [xs[|xs| - 1]]
  }

  /** `part_info` after parsing the kept records. */
  function JointCounts(rs: seq<RawRecord>): Dict<string, nat> {
    FirstOccurrences(Valued(rs))
  }

  /** Name k occurs in xs. */
  predicate Occurs(xs: seq<(string, nat)>, k: string) {
    exists j :: 0 <= j < |xs| && xs[j].0 == k
  }

  /** The first index at which name k occurs in xs. */
  function FirstIndex(xs: seq<(string, nat)>, k: string): (i: nat)
    requires Occurs(xs, k)
    ensures i < |xs| && xs[i].0 == k
    ensures forall j :: 0 <= j < i ==> xs[j].0 != k
    decreases |xs|
  {
    if xs[0].0 == k then 0
    else
      assert Occurs(xs[1..], k) by {
        var j :| 0 <= j < |xs| && xs[j].0 == k;
        assert xs[1..][j - 1] == xs[j];
      }
      1 + FirstIndex(xs[1..], k)
  }

  lemma FirstIndexUnique(xs: seq<(string, nat)>, k: string, i: nat)
    requires i < |xs| && xs[i].0 == k && forall j :: 0 <= j < i ==> xs[j].0 != k
    ensures Occurs(xs, k) && FirstIndex(xs, k) == i
  {
    assert Occurs(xs, k);
  }

  /** Appending to xs does not move the first index of a name already in it. */
  lemma FirstIndexAppend(xs: seq<(string, nat)>, x: (string, nat), k: string)
    requires Occurs(xs, k)
    ensures Occurs(xs + [x], k) && FirstIndex(xs + [x], k) == FirstIndex(xs, k)
  {
    var i := FirstIndex(xs, k);
    FirstIndexUnique(xs + [x], k, i);
  }

  lemma OccursAppend(xs: seq<(string, nat)>, x: (string, nat), k: string)
    ensures Occurs(xs + [x], k) <==> Occurs(xs, k) || x.0 == k
  {
    if Occurs(xs + [x], k) && !Occurs(xs, k) {
      var j :| 0 <= j < |xs| + 1 && (xs + [x])[j].0 == k;
      assert j == |xs|;
    }
    if Occurs(xs, k) {
      var j :| 0 <= j < |xs| && xs[j].0 == k;
      assert (xs + [x])[j] == xs[j];
    }
    if x.0 == k {
      assert (xs + [x])[|xs|] == x;
    }
  }

  /** `part_info` holds one pair per name that occurs and no other. */
  lemma {:induction false} FirstOccurrencesKeys(xs: seq<(string, nat)>)
    ensures forall k :: k in Keys(FirstOccurrences(xs)) <==> Occurs(xs, k)
    decreases |xs|
  {
    if xs != [] {
      var init, x := xs[..|xs| - 1], xs[|xs| - 1];
      assert xs == init + [x];
      FirstOccurrencesKeys(init);
      KeysAppend(FirstOccurrences(init), x);
      forall k ensures Occurs(xs, k) <==> Occurs(init, k) || x.0 == k {
        OccursAppend(init, x, k);
      }
    }
  }

  /** The names of `part_info` are pairwise distinct. */
  lemma {:induction false} FirstOccurrencesDistinct(xs: seq<(string, nat)>)
    ensures DistinctKeys(FirstOccurrences(xs))
    decreases |xs|
  {
    if xs != [] {
      var init, x := xs[..|xs| - 1], xs[|xs| - 1];
      FirstOccurrencesDistinct(init);
      var d := FirstOccurrences(init);
      if x.0 !in Keys(d) {
        assert forall i :: 0 <= i < |d| ==> Keys(d)[i] == d[i].0;
      }
    }
  }

  /** The count stored for a name is the one from its FIRST occurrence;
      later occurrences never change it. */
  lemma {:induction false} FirstOccurrencesValue(xs: seq<(string, nat)>, k: string)
    requires Occurs(xs, k)
    ensures Get(FirstOccurrences(xs), k) == Some(xs[FirstIndex(xs, k)].1)
    decreases |xs|
  {
    var init, x := xs[..|xs| - 1], xs[|xs| - 1];
    assert xs == init + [x];
    var d := FirstOccurrences(init);
    FirstOccurrencesKeys(init);
    OccursAppend(init, x, k);
    if Occurs(init, k) {
      FirstOccurrencesValue(init, k);
      FirstIndexAppend(init, x, k);
      GetAppend(d, x, k);
    } else {
      FirstIndexUnique(xs, k, |xs| - 1);
      GetAppend(d, x, k);
    }
  }

  /** The names of `part_info` come in order of first appearance. */
  lemma {:induction false} FirstOccurrencesOrder(xs: seq<(string, nat)>, a: nat, b: nat)
    requires a < b < |FirstOccurrences(xs)|
    ensures Occurs(xs, FirstOccurrences(xs)[a].0) && Occurs(xs, FirstOccurrences(xs)[b].0)
    ensures FirstIndex(xs, FirstOccurrences(xs)[a].0) < FirstIndex(xs, FirstOccurrences(xs)[b].0)
    decreases |xs|
  {
    var init, x := xs[..|xs| - 1], xs[|xs| - 1];
    assert xs == init + [x];
    var d := FirstOccurrences(init);
    FirstOccurrencesKeys(init);
    assert Keys(d)[a] == d[a].0;
    FirstIndexAppend(init, x, d[a].0);
    if b < |d| {
      assert Keys(d)[b] == d[b].0;
      FirstOccurrencesOrder(init, a, b);
      FirstIndexAppend(init, x, d[b].0);
    } else {
      assert FirstOccurrences(xs)[b] == x && x.0 !in Keys(d);
      assert !Occurs(init, x.0);
      FirstIndexUnique(xs, x.0, |xs| - 1);
    }
  }

  /** The whole parse: load, slice, parse every kept record, count joints. */
  function ParseOutcome(raw: Option<seq<RawRecord>>, f: int): Result<(seq<Entry>, Dict<string, nat>), ParseError> {
    if raw.None? then Failure(LoadFailed)
    else if f == 0 then Failure(ZeroStep)
    else
      var kept := Downsample(raw.value, f);
      match ParseEntries(kept)
      case Failure(e) => Failure(e)
      case Success(es) => Success((es, JointCounts(kept)))
  }

  // ---------------------------------------------------------------------
  // Lookups over a parsed timeline

  /** Result of `get_data_by_index`: the entry, `None`, or an IndexError
      (Python indexes negative positions from the end). */
  datatype IndexLookup = Hit(entry: Entry) | Miss | Raises

  function DataByIndex(parsed: Option<seq<Entry>>, index: int): (r: IndexLookup)
    ensures parsed.None? ==> r == Miss
    ensures parsed.Some? && 0 <= index < |parsed.value| ==> r == Hit(parsed.value[index])
    ensures parsed.Some? && index >= |parsed.value| ==> r == Miss
    ensures parsed.Some? && -|parsed.value| <= index < 0 ==> r == Hit(parsed.value[|parsed.value| + index])
    ensures parsed.Some? && index < -|parsed.value| ==> r == Raises
  {
    if parsed.None? || index >= |parsed.value| then Miss
    else if index >= 0 then Hit(parsed.value[index])
    else if index >= -|parsed.value| then Hit(parsed.value[|parsed.value| + index])
    else Raises
  }

  /** The first entry, in timeline order, with the given sequence id. */
  function FirstWithSequenceId(es: seq<Entry>, id: int): (r: Option<nat>)
    ensures r.Some? ==> r.value < |es| && es[r.value].sequenceId == id
    ensures r.Some? ==> forall j :: 0 <= j < r.value ==> es[j].sequenceId != id
    ensures r.None? ==> forall j :: 0 <= j < |es| ==> es[j].sequenceId != id
    decreases |es|
  {
    if es == [] then None
    else if es[0].sequenceId == id then Some(0)
    else
      match FirstWithSequenceId(es[1..], id)
      case None => None
      case Some(i) => Some(i + 1)
  }

  /** `get_data_by_sequence_id` as a function of the parser's parsed data. */
  function DataBySequenceId(parsed: Option<seq<Entry>>, id: int): Option<Entry> {
    if parsed.None? then None
    else match FirstWithSequenceId(parsed.value, id)
      case None => None
      case Some(i) => Some(parsed.value[i])
  }

  predicate UniqueSequenceIds(es: seq<Entry>) {
    forall i, j :: 0 <= i < j < |es| ==> es[i].sequenceId != es[j].sequenceId
  }

  /** With unique ids, looking an entry up by its position and by its
      sequence id give the same entry. */
  lemma IndexAndSequenceIdAgree(es: seq<Entry>, i: nat)
    requires UniqueSequenceIds(es) && i < |es|
    ensures DataByIndex(Some(es), i) == Hit(es[i])
    ensures DataBySequenceId(Some(es), es[i].sequenceId) == Some(es[i])
  {
    var r := FirstWithSequenceId(es, es[i].sequenceId);
    assert r.Some?;
    assert !(r.value < i);
  }

  /** `min(xs)` and `max(xs)` of a non-empty list. */
  function SeqMin(xs: seq<int>): (m: int)
    requires |xs| > 0
    ensures m in xs && forall i :: 0 <= i < |xs| ==> m <= xs[i]
    decreases |xs|
  {
    if |xs| == 1 then xs[0]
    else
      var rest := SeqMin(xs[1..]);
      assert forall i :: 1 <= i < |xs| ==> xs[i] == xs[1..][i - 1];
      if xs[0] <= rest then xs[0] else rest
  }

  function SeqMax(xs: seq<int>): (m: int)
    requires |xs| > 0
    ensures m in xs && forall i :: 0 <= i < |xs| ==> xs[i] <= m
    decreases |xs|
  {
    if |xs| == 1 then xs[0]
    else
      var rest := SeqMax(xs[1..]);
      assert forall i :: 1 <= i < |xs| ==> xs[i] == xs[1..][i - 1];
      if xs[0] >= rest then xs[0] else rest
  }

  function SequenceIds(es: seq<Entry>): (ids: seq<int>)
    ensures |ids| == |es| && forall i :: 0 <= i < |es| ==> ids[i] == es[i].sequenceId
  {
    seq(|es|, i requires 0 <= i < |es| => es[i].sequenceId)
  }

  function Timestamps(es: seq<Entry>): (ts: seq<int>)
    ensures |ts| == |es| && forall i :: 0 <= i < |es| ==> ts[i] == es[i].timestampNs
  {
    seq(|es|, i requires 0 <= i < |es| => es[i].timestampNs)
  }

  /** `get_timeline_info` without the float duration: `{}` before parsing,
      a ValueError from `min` over an empty timeline, otherwise the counts
      and ranges. */
  datatype TimelineInfo =
    | Unparsed
    | EmptyTimeline
    | Info(totalEntries: nat, sequenceMin: int, sequenceMax: int, timestampMin: int, timestampMax: int)

  function TimelineInfoOf(parsed: Option<seq<Entry>>): (r: TimelineInfo)
    ensures parsed.None? <==> r == Unparsed
    ensures parsed.Some? && parsed.value == [] <==> r == EmptyTimeline
    ensures r.Info? ==> parsed.Some? && r.totalEntries == |parsed.value|
    ensures r.Info? ==> r.sequenceMin <= r.sequenceMax && r.timestampMin <= r.timestampMax
    ensures r.Info? ==> forall i :: 0 <= i < |parsed.value| ==>
      r.sequenceMin <= parsed.value[i].sequenceId <= r.sequenceMax &&
      r.timestampMin <= parsed.value[i].timestampNs <= r.timestampMax
    ensures r.Info? ==> exists i :: 0 <= i < |parsed.value| && parsed.value[i].sequenceId == r.sequenceMin
    ensures r.Info? ==> exists i :: 0 <= i < |parsed.value| && parsed.value[i].sequenceId == r.sequenceMax
    ensures r.Info? ==> exists i :: 0 <= i < |parsed.value| && parsed.value[i].timestampNs == r.timestampMin
    ensures r.Info? ==> exists i :: 0 <= i < |parsed.value| && parsed.value[i].timestampNs == r.timestampMax
  {
    if parsed.None? then Unparsed
    else if parsed.value == [] then EmptyTimeline
    else
      var es := parsed.value;
      var ids, ts := SequenceIds(es), Timestamps(es);
      Info(|es|, SeqMin(ids), SeqMax(ids), SeqMin(ts), SeqMax(ts))
  }

  /** Indices of the entries that contain the part, in increasing order. */
  function EntriesWithPart(es: seq<Entry>, n: string): (idx: seq<nat>)
    ensures forall k :: 0 <= k < |idx| ==> idx[k] < |es| && n in es[idx[k]].parts
    ensures forall k, l :: 0 <= k < l < |idx| ==> idx[k] < idx[l]
    ensures forall i :: 0 <= i < |es| && n in es[i].parts ==> i in idx
    decreases |es|
  {
    if es == [] then []
    else
      var init := EntriesWithPart(es[..|es| - 1], n);
      if n in es[|es| - 1].parts then init + [|es| - 1] else init
  }

  /** The vectors of the entries that hold the part, in timeline order. */
  function PositionsIn(es: seq<Entry>, n: string): seq<seq<real>>
    decreases |es|
  {
    if es == [] then []
    else
      var e := es[|es| - 1];
      PositionsIn(es[..|es| - 1], n) + (if n in e.parts then [e.parts[n]] else [])
  }

  /** `get_joint_positions_for_part` as a function of the parsed data. */
  function PositionsForPart(parsed: Option<seq<Entry>>, n: string): seq<seq<real>> {
    if parsed.None? then [] else PositionsIn(parsed.value, n)
  }

  /** The vectors returned are exactly those of the entries holding the part,
      in timeline order: vector k is that of entry EntriesWithPart(es, n)[k]. */
  lemma {:induction false} PositionsInSpec(es: seq<Entry>, n: string)
    ensures |PositionsIn(es, n)| == |EntriesWithPart(es, n)|
    ensures forall k :: 0 <= k < |PositionsIn(es, n)| ==>
      PositionsIn(es, n)[k] == es[EntriesWithPart(es, n)[k]].parts[n]
    decreases |es|
  {
    if es != [] {
      var m := |es| - 1;
      var init := es[..m];
      var ps, idx := PositionsIn(init, n), EntriesWithPart(init, n);
      PositionsInSpec(init, n);
      if n in es[m].parts {
        assert PositionsIn(es, n) == ps + [es[m].parts[n]];
        assert EntriesWithPart(es, n) == idx + [m];
      } else {
        assert PositionsIn(es, n) == ps;
        assert EntriesWithPart(es, n) == idx;
      }
      forall k | 0 <= k < |ps| ensures ps[k] == es[idx[k]].parts[n] {
        assert init[idx[k]] == es[idx[k]];
      }
    }
  }

  /** There are at most as many vectors as entries, and as many exactly when
      every entry holds the part, in which case vector i is entry i's. */
  lemma PositionsForPartBounds(es: seq<Entry>, n: string)
    ensures |PositionsForPart(Some(es), n)| <= |es|
    ensures |PositionsForPart(Some(es), n)| == |es| <==> forall i :: 0 <= i < |es| ==> n in es[i].parts
    ensures (forall i :: 0 <= i < |es| ==> n in es[i].parts) ==>
      forall i :: 0 <= i < |es| ==> PositionsForPart(Some(es), n)[i] == es[i].parts[n]
  {
    PositionsInSpec(es, n);
    var idx := EntriesWithPart(es, n);
    IncreasingBounded(idx, |es|);
    if |idx| == |es| {
      IncreasingIsIdentity(idx, |es|);
      forall i | 0 <= i < |es| ensures n in es[i].parts { assert idx[i] == i; }
    }
    if forall i :: 0 <= i < |es| ==> n in es[i].parts {
      CoveringIsFull(idx, |es|);
      IncreasingIsIdentity(idx, |es|);
    }
  }

  /** A strictly increasing list of naturals below n has at most n elements. */
  lemma {:induction false} IncreasingBounded(idx: seq<nat>, n: nat)
    requires forall k :: 0 <= k < |idx| ==> idx[k] < n
    requires forall k, l :: 0 <= k < l < |idx| ==> idx[k] < idx[l]
    ensures |idx| <= n
  {
    if |idx| > 0 {
      IncreasingAtLeast(idx, |idx| - 1);
    }
  }

  /** A strictly increasing list holding every natural below n starts 0, 1, ..., i. */
  lemma {:induction false} CoveringPrefix(idx: seq<nat>, n: nat, i: nat)
    requires forall k, l :: 0 <= k < l < |idx| ==> idx[k] < idx[l]
    requires forall m :: 0 <= m < n ==> m in idx
    requires i < n
    ensures i < |idx| && idx[i] == i
  {
    assert i in idx;
    var k :| 0 <= k < |idx| && idx[k] == i;
    if i > 0 {
      CoveringPrefix(idx, n, i - 1);
    }
  }

  /** A list holding every natural below n, each at most once, has n elements. */
  lemma CoveringIsFull(idx: seq<nat>, n: nat)
    requires forall k :: 0 <= k < |idx| ==> idx[k] < n
    requires forall k, l :: 0 <= k < l < |idx| ==> idx[k] < idx[l]
    requires forall i :: 0 <= i < n ==> i in idx
    ensures |idx| == n
  {
    IncreasingBounded(idx, n);
    if n > 0 { CoveringPrefix(idx, n, n - 1); }
  }

  /** A strictly increasing list of |idx| naturals below |idx| is 0, 1, 2, ... */
  lemma IncreasingIsIdentity(idx: seq<nat>, n: nat)
    requires |idx| == n
    requires forall k :: 0 <= k < |idx| ==> idx[k] < n
    requires forall k, l :: 0 <= k < l < |idx| ==> idx[k] < idx[l]
    ensures forall k :: 0 <= k < |idx| ==> idx[k] == k
  {
    forall k | 0 <= k < |idx| ensures idx[k] == k {
      IncreasingAtLeast(idx, k);
      IncreasingAtMost(idx, n, k);
    }
  }

  lemma {:induction false} IncreasingAtLeast(idx: seq<nat>, k: nat)
    requires k < |idx|
    requires forall a, b :: 0 <= a < b < |idx| ==> idx[a] < idx[b]
    ensures idx[k] >= k
  {
    if k > 0 { IncreasingAtLeast(idx, k - 1); }
  }

  lemma {:induction false} IncreasingAtMost(idx: seq<nat>, n: nat, k: nat)
    requires k < |idx| == n
    requires forall a :: 0 <= a < |idx| ==> idx[a] < n
    requires forall a, b :: 0 <= a < b < |idx| ==> idx[a] < idx[b]
    ensures idx[k] <= k
    decreases n - k
  {
    if k < n - 1 { IncreasingAtMost(idx, n, k + 1); }
  }

  // ---------------------------------------------------------------------
  // The parser object

  class RobotDataParser {
    /** What reading and decoding the JSON file yields; `None` when the file
        cannot be read or decoded. */
    const source: Option<seq<RawRecord>>
    var rawData: Option<seq<RawRecord>>
    var parsedData: Option<seq<Entry>>
    var partInfo: Dict<string, nat>

    /** `part_info` is a dict, so its keys are distinct, and it stays empty
        until a parse succeeds. */
    ghost predicate Valid()
      reads this
    {
      DistinctKeys(partInfo) && (parsedData.None? ==> partInfo == [])
    }

    constructor(source: Option<seq<RawRecord>>)
      ensures this.source == source
      ensures rawData == None && parsedData == None && partInfo == []
      ensures Valid()
    {
      this.source := source;
      rawData := None;
      parsedData := None;
      partInfo := [];
    }

    /** `load_data`: false stands for the exception it re-raises. */
    method LoadData() returns (ok: bool)
      modifies this`rawData
      ensures ok <==> source.Some?
      ensures rawData == if ok then source else old(rawData)
    {
      ok := source.Some?;
      if ok {
        rawData := source;
      }
    }

    /** The inner loop of `parse_data` over one snapshot's part records:
        builds the entry's `parts` and extends the joint counts. */
    static method ParseSnapshot(ps: seq<RawPart>, counts0: Dict<string, nat>, ghost before: seq<(string, nat)>)
      returns (r: Result<map<string, seq<real>>, ParseError>, counts: Dict<string, nat>)
      requires counts0 == FirstOccurrences(before)
      ensures r == ParseParts(ps)
      ensures r.Success? ==> counts == FirstOccurrences(before + ValuedParts(ps))
    {
      var parts: map<string, seq<real>> := map[];
      counts := counts0;
      var p := 0;
      assert ps[..0] == [];
      assert before + ValuedParts(ps[..0]) == before;
      while p < |ps|
        invariant 0 <= p <= |ps|
        invariant ParseParts(ps[..p]) == Success(parts)
        invariant counts == FirstOccurrences(before + ValuedParts(ps[..p]))
      {
        var pd := ps[p];
        assert ps[..p + 1][..p] == ps[..p];
        if pd.part.None? {
          ParsePartsPrefixFails(ps, p + 1, MissingField("part"));
          return Failure(MissingField("part")), counts;
        }
        var xs := before + ValuedParts(ps[..p]);
        if pd.values.Some? {
          var name := pd.part.value;
          parts := parts[name := pd.values.value];
          assert (xs + [(name, |pd.values.value|)])[..|xs|] == xs;
          if name !in Keys(counts) {
            counts := counts + [(name, |pd.values.value|)];
          }
          assert before + ValuedParts(ps[..p + 1]) == xs + [(name, |pd.values.value|)];
        } else {
          assert before + ValuedParts(ps[..p + 1]) == xs;
        }
        p := p + 1;
      }
      assert ps[..p] == ps;
      r := Success(parts);
    }

    /** The record loop of `parse_data` over the kept records: the entries
        and the first-seen joint counts, or the first record's error. */
    static method ParseRecords(kept: seq<RawRecord>) returns (r: Result<(seq<Entry>, Dict<string, nat>), ParseError>)
      ensures ParseEntries(kept).Failure? ==> r == Failure(ParseEntries(kept).error)
      ensures ParseEntries(kept).Success? ==> r == Success((ParseEntries(kept).value, JointCounts(kept)))
    {
      var entries: seq<Entry> := [];
      var counts: Dict<string, nat> := [];
      var k := 0;
      while k < |kept|
        invariant 0 <= k <= |kept|
        invariant ParseEntries(kept[..k]) == Success(entries)
        invariant counts == FirstOccurrences(Valued(kept[..k]))
      {
        var rec := kept[k];
        assert kept[..k + 1][..k] == kept[..k];
        var sid := if rec.sequenceId.Some? then IntOf(rec.sequenceId.value) else None;
        var ts := if rec.timestampNs.Some? then IntOf(rec.timestampNs.value) else None;
        if sid.None? || ts.None? || rec.parts.None? {
          // the first missing key or bad value, in the order the record is read
          var e := ParseRecord(rec).error;
          ParseEntriesPrefixFails(kept, k + 1, e);
          return Failure(e);
        }
        var ps := rec.parts.value;
        var parts;
        parts, counts := ParseSnapshot(ps, counts, Valued(kept[..k]));
        if parts.Failure? {
          ParseEntriesPrefixFails(kept, k + 1, parts.error);
          return Failure(parts.error);
        }
        assert kept[..k + 1][k] == rec;
        assert Valued(kept[..k + 1]) == Valued(kept[..k]) + ValuedParts(ps);
        entries := entries + [Entry(sid.value, ts.value, parts.value)];
        k := k + 1;
      }
      assert kept[..k] == kept;
      r := Success((entries, counts));
    }

    /** `parse_data(downsample_factor)`: the fields change only when every
        kept record parses; loading happens first when nothing was loaded. */
    method ParseData(f: int) returns (outcome: Outcome<ParseError>)
      requires Valid()
      modifies this`rawData, this`parsedData, this`partInfo
      ensures Valid()
      ensures rawData == if old(rawData).None? then source else old(rawData)
      ensures ParseOutcome(rawData, f).Success? ==>
        outcome == Pass && parsedData == Some(ParseOutcome(rawData, f).value.0)
        && partInfo == ParseOutcome(rawData, f).value.1
      ensures ParseOutcome(rawData, f).Failure? ==>
        outcome == Fail(ParseOutcome(rawData, f).error)
        && parsedData == old(parsedData) && partInfo == old(partInfo)
    {
      if rawData.None? {
        var ok := LoadData();
        if !ok {
          return Fail(LoadFailed);
        }
      }
      if f == 0 {
        return Fail(ZeroStep);
      }
      var r := ParseRecords(Downsample(rawData.value, f));
      if r.Failure? {
        return Fail(r.error);
      }
      FirstOccurrencesDistinct(Valued(Downsample(rawData.value, f)));
      parsedData := Some(r.value.0);
      partInfo := r.value.1;
      outcome := Pass;
    }

    /** `get_part_names` */
    function GetPartNames(): (r: seq<string>)
      reads this
      requires Valid()
      ensures |r| == |partInfo| && forall i :: 0 <= i < |r| ==> r[i] == partInfo[i].0
      ensures forall i, j :: 0 <= i < j < |r| ==> r[i] != r[j]
      ensures forall i :: 0 <= i < |r| ==> GetPartJointCount(r[i]) == partInfo[i].1
      ensures parsedData.None? ==> r == []
    {
      GetAtAll(partInfo);
      Keys(partInfo)
    }

    /** `get_part_joint_count`: 0 for a part that was never seen. */
    function GetPartJointCount(name: string): (r: nat)
      reads this
      ensures name !in Keys(partInfo) ==> r == 0
      ensures name in Keys(partInfo) ==> exists i :: 0 <= i < |partInfo| && partInfo[i] == (name, r)
    {
      Get(partInfo, name).GetOr(0)
    }

    /** `get_sequence_ids`: `[]` before parsing, else one id per entry. */
    function GetSequenceIds(): (ids: seq<int>)
      reads this
      ensures parsedData.None? ==> ids == []
      ensures parsedData.Some? ==>
        |ids| == |parsedData.value| && forall i :: 0 <= i < |ids| ==> ids[i] == parsedData.value[i].sequenceId
    {
      if parsedData.None? then [] else SequenceIds(parsedData.value)
    }

    /** `get_data_by_index` (no lower-bound check; negative positions count
        from the end). */
    function GetDataByIndex(index: int): (r: IndexLookup)
      reads this
      ensures parsedData.None? ==> r == Miss
      ensures parsedData.Some? ==> (r.Hit? <==> -|parsedData.value| <= index < |parsedData.value|)
      ensures parsedData.Some? ==> (r == Raises <==> index < -|parsedData.value|)
      ensures r.Hit? ==> (parsedData.Some? && -|parsedData.value| <= index < |parsedData.value| &&
        r.entry == parsedData.value[if index >= 0 then index else |parsedData.value| + index])
    {
      DataByIndex(parsedData, index)
    }

    /** `get_data_by_sequence_id`: a linear scan, first match wins. */
    method GetDataBySequenceId(id: int) returns (r: Option<Entry>)
      ensures r == DataBySequenceId(parsedData, id)
      ensures r.Some? ==> r.value.sequenceId == id
    {
      if parsedData.None? {
        return None;
      }
      var es := parsedData.value;
      var i := 0;
      while i < |es|
        invariant 0 <= i <= |es|
        invariant forall j :: 0 <= j < i ==> es[j].sequenceId != id
      {
        if es[i].sequenceId == id {
          return Some(es[i]);
        }
        i := i + 1;
      }
      return None;
    }

    /** `get_timeline_info`, without `duration_seconds`. */
    function GetTimelineInfo(): (r: TimelineInfo)
      reads this
      ensures parsedData.None? <==> r == Unparsed
      ensures parsedData == Some([]) <==> r == EmptyTimeline
      ensures r.Info? ==> parsedData.Some? && r.totalEntries == |parsedData.value|
      ensures r.Info? ==> forall i :: 0 <= i < |parsedData.value| ==>
        r.sequenceMin <= parsedData.value[i].sequenceId <= r.sequenceMax &&
        r.timestampMin <= parsedData.value[i].timestampNs <= r.timestampMax
      ensures r.Info? ==>
        (exists i :: 0 <= i < |parsedData.value| && parsedData.value[i].sequenceId == r.sequenceMin) &&
        (exists i :: 0 <= i < |parsedData.value| && parsedData.value[i].sequenceId == r.sequenceMax) &&
        (exists i :: 0 <= i < |parsedData.value| && parsedData.value[i].timestampNs == r.timestampMin) &&
        (exists i :: 0 <= i < |parsedData.value| && parsedData.value[i].timestampNs == r.timestampMax)
    {
      TimelineInfoOf(parsedData)
    }

    /** `get_joint_positions_for_part`: collects the part's vector from every
        entry containing it. */
    method GetJointPositionsForPart(name: string) returns (positions: seq<seq<real>>)
      ensures positions == PositionsForPart(parsedData, name)
    {
      if parsedData.None? {
        return [];
      }
      var es := parsedData.value;
      positions := [];
      var i := 0;
      while i < |es|
        invariant 0 <= i <= |es|
        invariant positions == PositionsIn(es[..i], name)
      {
        assert es[..i + 1][..i] == es[..i];
        if name in es[i].parts {
          positions := positions + [es[i].parts[name]];
        }
        i := i + 1;
      }
      assert es[..i] == es;
    }
  }
}
