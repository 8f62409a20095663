/** The human-readable size shown under each file, and the unit rendering it shares
    with the sidebar total: whole bytes with " B", or a value with one decimal
    place followed by " KB" (units of 1024 bytes) or " MB" (units of 1048576 bytes). */
module SizeLabel {
  import opened Wrappers
  import opened Decimal
  import opened Text
  import opened Rounding
  import opened Files

  const KiB: nat := 1024
  const MiB: nat := 1024 * 1024

  /** What a size string says: a whole number of bytes, or tenths of a KB or MB. */
  datatype Label = Bytes(count: nat) | Kilo(tenths: nat) | Mega(tenths: nat)

  /** `%.1f` of a value already rounded to `t` tenths: it reads back as `t`. */
  function ShowTenths(t: nat): (s: string)
    ensures ParseTenths(s) == Some(t)
  {
    var s := Show(t / 10) + "." + [DigitChar(t % 10)];
    assert s[..|s| - 2] == Show(t / 10);
    s
  }

  /** A size string: bytes end in " B" and have no decimal point; KB and MB end in
      their unit. */
  function Render(l: Label): (s: string)
    ensures l.Bytes? ==> EndsWith(s, " B") && '.' !in s
    ensures l.Kilo? ==> EndsWith(s, " KB")
    ensures l.Mega? ==> EndsWith(s, " MB")
  {
    match l
    case Bytes(n) => Show(n) + " B"
    case Kilo(t) => ShowTenths(t) + " KB"
    case Mega(t) => ShowTenths(t) + " MB"
  }

  /** Reads "<digits>.<digit>" back as a number of tenths; the whole part has no
      leading zero. */
  function ParseTenths(s: string): Option<nat> {
    if 3 <= |s| && s[|s| - 2] == '.' && IsDigit(s[|s| - 1]) && IsCanonical(s[..|s| - 2])
    then Some(Value(s[..|s| - 2]) * 10 + DigitValue(s[|s| - 1]))
    else None
  }

  /** Reads a size string back as the label it renders. */
  function Parse(s: string): Option<Label> {
    if EndsWith(s, " KB") then
      match ParseTenths(s[..|s| - 3])
      case Some(t) => Some(Kilo(t))
      case None => None
    else if EndsWith(s, " MB") then
      match ParseTenths(s[..|s| - 3])
      case Some(t) => Some(Mega(t))
      case None => None
    else if EndsWith(s, " B") && IsCanonical(s[..|s| - 2]) then
      Some(Bytes(Value(s[..|s| - 2])))
    else None
  }

  /** A rendered size string determines its unit and its value. */
  lemma ParseRender(l: Label)
    ensures Parse(Render(l)) == Some(l)
  {
    var s := Render(l);
    match l
    case Bytes(n) =>
      assert s[..|s| - 2] == Show(n);
      assert s[|s| - 2] == ' ';
    case Kilo(t) =>
      assert s[..|s| - 3] == ShowTenths(t);
      assert s[|s| - 3..] == " KB";
    case Mega(t) =>
      assert s[..|s| - 3] == ShowTenths(t);
      assert s[|s| - 3..] == " MB";
      assert s[|s| - 2] == 'M';
  }

  lemma ShowTenthsParse(s: string, t: nat)
    requires ParseTenths(s) == Some(t)
    ensures s == ShowTenths(t)
  {
    var whole, last := s[..|s| - 2], s[|s| - 1];
    ShowValue(whole);
    assert t / 10 == Value(whole) && t % 10 == DigitValue(last);
    assert DigitChar(DigitValue(last)) == last;
    assert s == whole + "." + [last];
  }

  /** A string that reads back as a label is exactly that label's rendering, so
      a size string is fixed by its unit and its value. */
  lemma RenderParse(s: string, l: Label)
    requires Parse(s) == Some(l)
    ensures s == Render(l)
  {
    if EndsWith(s, " KB") || EndsWith(s, " MB") {
      var t := if l.Bytes? then 0 else l.tenths;
      ShowTenthsParse(s[..|s| - 3], t);
      assert s == s[..|s| - 3] + s[|s| - 3..];
    } else {
      ShowValue(s[..|s| - 2]);
      assert s == s[..|s| - 2] + s[|s| - 2..];
    }
  }

  /** Different labels never render as the same string. */
  lemma RenderInjective(a: Label, b: Label)
    requires Render(a) == Render(b)
    ensures a == b
  {
    ParseRender(a);
    ParseRender(b);
  }

  /** The KB/MB rendering: below 1048576 bytes in KB, otherwise in MB, each
      rounded to the nearest tenth with ties to even. */
  function Scaled(n: nat): (l: Label)
    ensures !l.Bytes?
    ensures l.Kilo? <==> n < MiB
    ensures l.Kilo? ==> IsNearestTiesEven(n * 10, KiB, l.tenths)
    ensures l.Mega? ==> IsNearestTiesEven(n * 10, MiB, l.tenths)
  {
    if n < MiB then Kilo(RoundHalfEven(n * 10, KiB)) else Mega(RoundHalfEven(n * 10, MiB))
  }

  /** The three bands of the per-file size: whole bytes below 1024, tenths of a KB
      below 1048576 (from 1.0 up to 1024.0), tenths of a MB from there on. */
  function SizeLabelOf(size: nat): (l: Label)
    ensures l.Bytes? <==> size < KiB
    ensures l.Bytes? ==> l.count == size
    ensures l.Kilo? <==> KiB <= size < MiB
    ensures l.Kilo? ==> IsNearestTiesEven(size * 10, KiB, l.tenths) && 10 <= l.tenths <= 10240
    ensures l.Mega? ==> IsNearestTiesEven(size * 10, MiB, l.tenths) && 10 <= l.tenths
  {
    if size < KiB then Bytes(size) else Scaled(size)
  }

  /** The size string of one file: it reads back as that file's label, and below
      1024 bytes it has no decimal point. */
  function FormatSize(size: nat): (s: string)
    ensures Parse(s) == Some(SizeLabelOf(size))
    ensures size < KiB ==> '.' !in s
  {
    ParseRender(SizeLabelOf(size));
    Render(SizeLabelOf(size))
  }

  /** The size caption of a listed file; a file without a size shows "0 B". */
  function FileSizeText(f: DriveFile): (s: string)
    ensures Parse(s) == Some(SizeLabelOf(SizeOf(f)))
    ensures f.size.None? ==> s == "0 B"
  {
    FormatSize(SizeOf(f))
  }

  /** The sidebar's total: never in bytes, in KB below 1048576 bytes (even below
      1024), in MB from there on. */
  function FormatTotal(total: nat): (s: string)
    ensures Parse(s) == Some(Scaled(total))
    ensures total < MiB ==> Parse(s).value.Kilo?
    ensures MiB <= total ==> Parse(s).value.Mega?
  {
    ParseRender(Scaled(total));
    Render(Scaled(total))
  }

  /** From 1024 bytes on the total and the per-file size print alike; below 1024
      they differ, the total being in KB where the file size is in bytes. */
  lemma TotalVersusFileSize(n: nat)
    ensures KiB <= n ==> FormatTotal(n) == FormatSize(n)
    ensures n < KiB ==> FormatTotal(n) != FormatSize(n)
  {
  }

  lemma ByteExamples()
    ensures FormatSize(0) == "0 B"
    ensures FormatSize(1023) == "1023 B"
  {
    assert Show(0) == "0";
    assert Show(1) == "1";
    assert Show(10) == "10";
    assert Show(102) == "102";
    assert Show(1023) == "1023";
  }

  lemma KiloExamples()
    ensures FormatSize(1024) == "1.0 KB"
    ensures FormatSize(1536) == "1.5 KB"
  {
    assert Show(1) == "1";
    assert SizeLabelOf(1024) == Kilo(10);
    assert SizeLabelOf(1536) == Kilo(15);
  }

  /** 1280 and 1792 bytes are 1.25 and 1.75 KB: halfway cases, rounded to the
      even tenth. */
  lemma KiloTieExamples()
    ensures FormatSize(1280) == "1.2 KB"
    ensures FormatSize(1792) == "1.8 KB"
  {
    assert Show(1) == "1";
    assert SizeLabelOf(1280) == Kilo(12);
    assert SizeLabelOf(1792) == Kilo(18);
  }

  lemma KiloUpperEdge()
    ensures FormatSize(1048575) == "1024.0 KB"
  {
    assert RoundHalfEven(10485750, KiB) == 10240;
    assert SizeLabelOf(1048575) == Kilo(10240);
    assert Show(1) == "1";
    assert Show(10) == "10";
    assert Show(102) == "102";
    assert Show(1024) == "1024";
    assert ShowTenths(10240) == "1024.0";
  }

  lemma MegaLowerEdge()
    ensures FormatSize(1048576) == "1.0 MB"
  {
    assert RoundHalfEven(10485760, MiB) == 10;
    assert SizeLabelOf(1048576) == Mega(10);
    assert Show(1) == "1";
  }

  lemma EmptyTotal()
    ensures FormatTotal(0) == "0.0 KB"
  {
    assert Scaled(0) == Kilo(0);
    assert Show(0) == "0";
  }
}
