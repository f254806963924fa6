/** Camera helpers: the name of a capture file and the scan for cameras that open. */
module UsbCams {

  /** The fields of a timestamp that the file name shows (sub-second parts are not shown). */
  datatype DateTime = DateTime(year: nat, month: nat, day: nat, hour: nat, minute: nat, second: nat)

  /** The ranges a datetime value keeps its fields in. */
  predicate ValidDateTime(t: DateTime) {
    1 <= t.year <= 9999 && 1 <= t.month <= 12 && 1 <= t.day <= 31 &&
    t.hour < 24 && t.minute < 60 && t.second < 60
  }

  predicate IsDigit(c: char) {
    '0' <= c <= '9'
  }

  predicate AllDigits(s: string) {
    forall i | 0 <= i < |s| :: IsDigit(s[i])
  }

  function DigitChar(d: nat): (c: char)
    requires d < 10
    ensures IsDigit(c) && (c as int) - ('0' as int) == d
  {
    ('0' as int + d) as char
  }

  /** The decimal text of n, without leading zeros. */
  function Decimal(n: nat): (r: string)
    ensures 1 <= |r| && AllDigits(r)
    ensures (r[0] == '0') == (n == 0)
    decreases n
  {
    if n < 10 then [DigitChar(n)] else Decimal(n / 10) + [DigitChar(n % 10)]
  }

  /** Reads a run of decimal digits back as a number. */
  function ParseDecimal(s: string): (n: nat)
    requires AllDigits(s)
    decreases |s|
  {
    if s == [] then 0
    else ParseDecimal(s[..|s| - 1]) * 10 + ((s[|s| - 1] as int) - ('0' as int))
  }

  /** Two decimal digits, zero-padded, as %m, %d, %H, %M and %S print them. */
  function Pad2(n: nat): (r: string)
    requires n < 100
  {
    [DigitChar(n / 10), DigitChar(n % 10)]
  }

  /** The timestamp as strftime('%Y%m%d-%H%M%S') prints it. */
  function Timestamp(t: DateTime): (r: string)
    requires ValidDateTime(t)
  {
    Decimal(t.year) + Pad2(t.month) + Pad2(t.day) + "-" +
    Pad2(t.hour) + Pad2(t.minute) + Pad2(t.second)
  }

  /** capture_filename: the capture start time, a dash, the camera index and ".mp4". */
  function CaptureFilename(startTime: DateTime, cam: nat): (name: string)
    requires ValidDateTime(startTime)
    ensures |name| > 4 && name[|name| - 4..] == ".mp4"
  {
    Timestamp(startTime) + "-" + Decimal(cam) + ".mp4"
  }

  /** The files of one capture: every camera's file is named after the
      same start time. */
  function SessionFilenames(startTime: DateTime, cams: seq<nat>): (names: seq<string>)
    requires ValidDateTime(startTime)
  {
    seq(|cams|, i requires 0 <= i < |cams| => CaptureFilename(startTime, cams[i]))
  }

  // ------------------------------------------------------------ lemmas

  /** Reading the decimal text of n gives n back. */
  lemma {:induction false} ParseDecimalOfDecimal(n: nat)
    ensures ParseDecimal(Decimal(n)) == n
    decreases n
  {
    var r := Decimal(n);
    if n >= 10 {
      ParseDecimalOfDecimal(n / 10);
      assert r[..|r| - 1] == Decimal(n / 10);
    }
  }

  /** A year from 1000 to 9999 prints as exactly four digits. */
  lemma DecimalOfFourDigitYear(year: nat)
    requires 1000 <= year <= 9999
    ensures |Decimal(year)| == 4
  {
    var y3, y2, y1 := year / 10, year / 10 / 10, year / 10 / 10 / 10;
    assert 1 <= y1 < 10 && 10 <= y2 < 100 && 100 <= y3 < 1000;
    assert |Decimal(y1)| == 1;
    assert |Decimal(y2)| == |Decimal(y1)| + 1;
    assert |Decimal(y3)| == |Decimal(y2)| + 1;
    assert |Decimal(year)| == |Decimal(y3)| + 1;
  }

  /** For years 1000 to 9999 the timestamp is always 15 characters: eight
      digits, a dash, six digits, each field zero-padded to its width, and
      every field can be read back from its place. */
  lemma TimestampLayout(t: DateTime)
    requires ValidDateTime(t) && 1000 <= t.year
    ensures var ts := Timestamp(t);
      |ts| == 15 && ts[8] == '-' &&
      AllDigits(ts[..8]) && AllDigits(ts[9..]) &&
      ParseDecimal(ts[0..4]) == t.year && ParseDecimal(ts[4..6]) == t.month &&
      ParseDecimal(ts[6..8]) == t.day && ParseDecimal(ts[9..11]) == t.hour &&
      ParseDecimal(ts[11..13]) == t.minute && ParseDecimal(ts[13..15]) == t.second
  {
    DecimalOfFourDigitYear(t.year);
    ParseDecimalOfDecimal(t.year);
    var ts := Timestamp(t);
    assert ts[0..4] == Decimal(t.year);
    assert ts[4..6] == Pad2(t.month);
    assert ts[6..8] == Pad2(t.day);
    assert ts[9..11] == Pad2(t.hour);
    assert ts[11..13] == Pad2(t.minute);
    assert ts[13..15] == Pad2(t.second);
    forall n: nat | n < 100 ensures ParseDecimal(Pad2(n)) == n {
      var p := Pad2(n);
      assert p[..1] == [DigitChar(n / 10)] && p[..1][..0] == [];
      assert ParseDecimal(p[..1]) == n / 10;
    }
  }

  /** The camera index can be read back from a file name: the digits between
      the timestamp's dash and ".mp4". */
  lemma FilenameNamesCamera(startTime: DateTime, cam: nat)
    requires ValidDateTime(startTime)
    ensures var name := CaptureFilename(startTime, cam);
      var from := |Timestamp(startTime)| + 1;
      from <= |name| - 4 && AllDigits(name[from..|name| - 4]) &&
      ParseDecimal(name[from..|name| - 4]) == cam
  {
    var name := CaptureFilename(startTime, cam);
    var from := |Timestamp(startTime)| + 1;
    assert name[from..|name| - 4] == Decimal(cam);
    ParseDecimalOfDecimal(cam);
  }

  /** Files of one capture share their start time, so cameras with
      different indices get different file names. */
  lemma DistinctCamerasDistinctFilenames(startTime: DateTime, a: nat, b: nat)
    requires ValidDateTime(startTime) && a != b
    ensures CaptureFilename(startTime, a) != CaptureFilename(startTime, b)
  {
    FilenameNamesCamera(startTime, a);
    FilenameNamesCamera(startTime, b);
  }

  /** In one capture over a strictly increasing list of cameras, no two
      files share a name. */
  lemma SessionFilenamesDistinct(startTime: DateTime, cams: seq<nat>)
    requires ValidDateTime(startTime)
    requires forall i, j | 0 <= i < j < |cams| :: cams[i] < cams[j]
    ensures var names := SessionFilenames(startTime, cams);
      forall i, j | 0 <= i < j < |names| :: names[i] != names[j]
  {
    var names := SessionFilenames(startTime, cams);
    forall i, j | 0 <= i < j < |names| ensures names[i] != names[j] {
      DistinctCamerasDistinctFilenames(startTime, cams[i], cams[j]);
    }
  }

  // ------------------------------------------------------- camera scan

  /** What the scan does to the camera driver: open a capture on an index,
      or release it. */
  datatype ProbeEvent = Open(index: nat) | Release(index: nat)

  /** Number of indices the scan checks. */
  const ScanRange := 10

  /** get_cams: open a capture on each index from 0 to 9 in turn, keep the
      index when it opened, and release the capture either way. `opens`
      stands for whether the driver opens a capture on that index. */
  method GetCams(opens: nat -> bool) returns (cameras: seq<nat>, events: seq<ProbeEvent>)
    ensures forall i, j | 0 <= i < j < |cameras| :: cameras[i] < cameras[j]
    ensures forall i | 0 <= i < |cameras| :: cameras[i] < ScanRange
    ensures forall n: nat :: n in cameras <==> n < ScanRange && opens(n)
    ensures |events| == 2 * ScanRange
    ensures forall n | 0 <= n < ScanRange ::
      events[2 * n] == Open(n) && events[2 * n + 1] == Release(n)
  {
    cameras, events := [], [];
    for i := 0 to ScanRange
      invariant forall a, b | 0 <= a < b < |cameras| :: cameras[a] < cameras[b]
      invariant forall a | 0 <= a < |cameras| :: cameras[a] < i
      invariant forall n: nat :: n in cameras <==> n < i && opens(n)
      invariant |events| == 2 * i
      invariant forall n | 0 <= n < i :: events[2 * n] == Open(n) && events[2 * n + 1] == Release(n)
    {
      events := events + [Open(i)];
      if opens(i) {
        cameras := cameras + [i];
      }
      events := events + [Release(i)];
    }
  }
}
