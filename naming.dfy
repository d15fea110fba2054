/** The names the crawler gives its output: the readable timestamp
    (`strftime('%Y-%m-%d_%H-%M-%S')`), the file name of one window, the
    per-day folder and their join, with parsers that read each one back. */
module Naming {
  import opened Wrappers
  import opened Calendar
  import opened Text

  /** What a file name records about the window it holds. */
  datatype FileNameFields = FileNameFields(from: DateTime, to: DateTime, mode: string, matches: nat)

  /** The folder for one day of the requested month. */
  datatype FolderFields = FolderFields(year: nat, month: nat, day: nat)

  const FolderRoot := "./sapk_data/"
  const Extension := ".json"

  /** `YYYY-MM-DD_HH-MM-SS`, every field zero-padded. */
  function Readable(dt: DateTime): string
    requires Valid(dt)
  {
    FieldsText(dt.year, dt.month, dt.day, 4) + "_" + FieldsText(dt.hour, dt.minute, dt.second, 2)
  }

  /** `A-BB-CC`, with A padded to `w` digits: the date or the time half of a timestamp. */
  function FieldsText(a: nat, b: nat, c: nat, w: nat): string {
    Padded(a, w) + "-" + Padded(b, 2) + "-" + Padded(c, 2)
  }

  /** Reads a readable timestamp back; None unless it is well formed and names a valid datetime. */
  function ParseReadable(s: string): (r: Option<DateTime>)
    ensures r.Some? ==> Valid(r.value)
  {
    if |s| != 19 || s[10] != '_' then None
    else
      match (ParseFields(s[..10], 4), ParseFields(s[11..], 2))
      case (Some((y, mo, d)), Some((h, mi, sec))) =>
        var dt := DateTime(y, mo, d, h, mi, sec);
        if Valid(dt) then Some(dt) else None
      case _ => None
  }

  /** Reads `A-BB-CC` where A has `w` digits. */
  function ParseFields(s: string, w: nat): Option<(nat, nat, nat)> {
    if |s| != w + 6 || s[w + 3] != '-' then None
    else
      var left, c := s[..w + 3], s[w + 4..];
      var a, b := left[..w], left[w + 1..];
      if left[w] == '-' && AllDigits(a) && AllDigits(b) && AllDigits(c)
      then Some((ParseDigits(a), ParseDigits(b), ParseDigits(c)))
      else None
  }

  /** `{start}-{end}-mode{mode}-{matches}.json` */
  function FileName(from: DateTime, to: DateTime, mode: string, matches: nat): string
    requires Valid(from) && Valid(to)
  {
    Readable(from) + "-" + Readable(to) + "-mode" + mode + "-" + Decimal(matches) + Extension
  }

  /** Reads a file name back.  The mode may hold any character, so the match
      count is found after the last '-' before the extension. */
  function ParseFileName(s: string): (r: Option<FileNameFields>)
    ensures r.Some? ==> Valid(r.value.from) && Valid(r.value.to)
  {
    if |s| < |Extension| || s[|s| - |Extension|..] != Extension then None
    else
      var body := s[..|s| - |Extension|];
      match LastIndexOf(body, '-')
      case None => None
      case Some(k) =>
        var digits := body[k + 1..];
        if digits == [] || !AllDigits(digits) then None
        else
          match ParseHead(body[..k])
          case Some((from, to, mode)) => Some(FileNameFields(from, to, mode, ParseDigits(digits)))
          case None => None
  }

  /** Reads `{start}-{end}-mode{mode}`. */
  function ParseHead(head: string): (r: Option<(DateTime, DateTime, string)>)
    ensures r.Some? ==> Valid(r.value.0) && Valid(r.value.1)
  {
    if |head| < 44 || head[39] != '-' then None
    else
      var stamps, tail := head[..39], head[40..];
      if stamps[19] != '-' || tail[..4] != "mode" then None
      else
        match (ParseReadable(stamps[..19]), ParseReadable(stamps[20..]))
        case (Some(from), Some(to)) => Some((from, to, tail[4..]))
        case _ => None
  }

  /** `./sapk_data/{year}/{month:02d}/{day:02d}` */
  function Folder(year: nat, month: nat, day: nat): string {
    FolderRoot + Decimal(year) + "/" + Padded(month, 2) + "/" + Padded(day, 2)
  }

  /** Reads a folder path back, the month and the day being the last two two-digit components. */
  function ParseFolder(s: string): Option<FolderFields> {
    if |s| < |FolderRoot| + 7 || s[|s| - 3] != '/' then None
    else
      var left, day := s[..|s| - 3], s[|s| - 2..];
      if left[|left| - 3] != '/' then None
      else
        var prefix, month := left[..|left| - 3], left[|left| - 2..];
        if prefix[..|FolderRoot|] != FolderRoot then None
        else
          var year := prefix[|FolderRoot|..];
          if AllDigits(year) && AllDigits(month) && AllDigits(day)
          then Some(FolderFields(ParseDigits(year), ParseDigits(month), ParseDigits(day)))
          else None
  }

  /** `os.path.join(folder, name)` for a relative name. */
  function Join(folder: string, name: string): string {
    folder + "/" + name
  }

  /** The position of the last `c` in `s`, if any. */
  function LastIndexOf(s: string, c: char): (r: Option<nat>)
    ensures r.None? <==> c !in s
    ensures r.Some? ==> r.value < |s| && s[r.value] == c
    ensures r.Some? ==> forall j :: r.value < j < |s| ==> s[j] != c
  {
    if s == [] then None
    else if s[|s| - 1] == c then Some(|s| - 1)
    else LastIndexOf(s[..|s| - 1], c)
  }

  // ---------------------------------------------------------------------------
  // Lemmas

  /** The three parts of `a`, a separator and `b` can be read back by position. */
  lemma SplitParts(a: string, sep: char, b: string)
    ensures var s := a + [sep] + b;
      |s| == |a| + 1 + |b| && s[..|a|] == a && s[|a|] == sep && s[|a| + 1..] == b
  {
  }

  /** `ParseFields` cuts `A-BB-CC` at its two separators and reads the three numerals. */
  lemma ParseFieldsParts(a: string, b: string, c: string, w: nat)
    requires |a| == w && |b| == 2 && |c| == 2 && AllDigits(a) && AllDigits(b) && AllDigits(c)
    ensures |a + "-" + b + "-" + c| == w + 6
    ensures ParseFields(a + "-" + b + "-" + c, w) == Some((ParseDigits(a), ParseDigits(b), ParseDigits(c)))
  {
    var left := a + "-" + b;
    SplitParts(a, '-', b);
    SplitParts(left, '-', c);
    assert a + "-" + b + "-" + c == left + ['-'] + c;
  }

  lemma FieldsRoundTrip(a: nat, b: nat, c: nat, w: nat)
    requires 1 <= w && a < Pow10(w) && b < 100 && c < 100
    ensures |FieldsText(a, b, c, w)| == w + 6 && ParseFields(FieldsText(a, b, c, w), w) == Some((a, b, c))
  {
    PaddedRoundTrip(a, w);
    PaddedRoundTrip(b, 2);
    PaddedRoundTrip(c, 2);
    ParseFieldsParts(Padded(a, w), Padded(b, 2), Padded(c, 2), w);
  }

  /** Every readable timestamp is 19 characters long and reads back as the datetime it came from. */
  lemma ReadableRoundTrip(dt: DateTime)
    requires Valid(dt)
    ensures |Readable(dt)| == 19 && ParseReadable(Readable(dt)) == Some(dt)
  {
    var date := FieldsText(dt.year, dt.month, dt.day, 4);
    var time := FieldsText(dt.hour, dt.minute, dt.second, 2);
    FieldsRoundTrip(dt.year, dt.month, dt.day, 4);
    FieldsRoundTrip(dt.hour, dt.minute, dt.second, 2);
    SplitParts(date, '_', time);
  }
  /** Distinct datetimes have distinct readable timestamps. */
  lemma ReadableInjective(a: DateTime, b: DateTime)
    requires Valid(a) && Valid(b) && Readable(a) == Readable(b)
    ensures a == b
  {
    ReadableRoundTrip(a);
    ReadableRoundTrip(b);
  }

  /** `ParseHead` cuts two 19-character stamps and the mode apart and reads each stamp. */
  lemma ParseHeadParts(a: string, b: string, mode: string)
    requires |a| == 19 && |b| == 19
    ensures |a + "-" + b + "-mode" + mode| >= 44
    ensures ParseHead(a + "-" + b + "-mode" + mode)
            == match (ParseReadable(a), ParseReadable(b))
               case (Some(from), Some(to)) => Some((from, to, mode))
               case _ => None
  {
    var stamps := a + "-" + b;
    var tail := "mode" + mode;
    assert a + "-" + b + "-mode" + mode == stamps + ['-'] + tail;
    SplitParts(stamps, '-', tail);
    SplitParts(a, '-', b);
    assert tail[..4] == "mode" && tail[4..] == mode;
  }

  lemma HeadRoundTrip(from: DateTime, to: DateTime, mode: string)
    requires Valid(from) && Valid(to)
    ensures |Readable(from) + "-" + Readable(to) + "-mode" + mode| >= 44
    ensures ParseHead(Readable(from) + "-" + Readable(to) + "-mode" + mode) == Some((from, to, mode))
  {
    ReadableRoundTrip(from);
    ReadableRoundTrip(to);
    ParseHeadParts(Readable(from), Readable(to), mode);
  }

  /** The last '-' of `head-digits` is the one before the digits. */
  lemma {:induction false} LastDashBeforeDigits(head: string, digits: string)
    requires AllDigits(digits)
    ensures LastIndexOf(head + "-" + digits, '-') == Some(|head|)
  {
    var s := head + "-" + digits;
    if digits == [] {
      assert s == head + ['-'];
    } else {
      var shorter := digits[..|digits| - 1];
      assert s[..|s| - 1] == head + "-" + shorter;
      assert s[|s| - 1] == digits[|digits| - 1];
      LastDashBeforeDigits(head, shorter);
    }
  }

  /** A file name reads back as the window bounds, mode and match count it was built from. */
  lemma FileNameRoundTrip(from: DateTime, to: DateTime, mode: string, matches: nat)
    requires Valid(from) && Valid(to)
    ensures ParseFileName(FileName(from, to, mode, matches)) == Some(FileNameFields(from, to, mode, matches))
  {
    var head := Readable(from) + "-" + Readable(to) + "-mode" + mode;
    var digits := Decimal(matches);
    var body := head + "-" + digits;
    var s := FileName(from, to, mode, matches);
    assert s == body + Extension;
    assert s[..|s| - |Extension|] == body;
    assert s[|s| - |Extension|..] == Extension;
    LastDashBeforeDigits(head, digits);
    SplitParts(head, '-', digits);
    HeadRoundTrip(from, to, mode);
    ParseDecimal(matches);
  }

  /** `ParseFolder` cuts the root, the year and two two-digit components apart and reads each numeral. */
  lemma ParseFolderParts(year: string, month: string, day: string)
    requires |year| >= 1 && |month| == 2 && |day| == 2 && AllDigits(year) && AllDigits(month) && AllDigits(day)
    ensures ParseFolder(FolderRoot + year + "/" + month + "/" + day)
            == Some(FolderFields(ParseDigits(year), ParseDigits(month), ParseDigits(day)))
  {
    var prefix := FolderRoot + year;
    var left := prefix + "/" + month;
    var s := left + "/" + day;
    assert FolderRoot + year + "/" + month + "/" + day == s;
    SplitParts(left, '/', day);
    assert s[..|s| - 3] == left && s[|s| - 3] == '/' && s[|s| - 2..] == day;
    SplitParts(prefix, '/', month);
    assert left[..|left| - 3] == prefix && left[|left| - 3] == '/' && left[|left| - 2..] == month;
    assert prefix[..|FolderRoot|] == FolderRoot && prefix[|FolderRoot|..] == year;
  }

  /** A folder path reads back as its year, month and day. */
  lemma FolderRoundTrip(year: nat, month: nat, day: nat)
    requires month < 100 && day < 100
    ensures ParseFolder(Folder(year, month, day)) == Some(FolderFields(year, month, day))
  {
    ParseDecimal(year);
    PaddedRoundTrip(month, 2);
    PaddedRoundTrip(day, 2);
    ParseFolderParts(Decimal(year), Padded(month, 2), Padded(day, 2));
  }

  /** Within one month, a joined path determines the day and everything its file name records. */
  lemma PathInjective(year: nat, month: nat, d1: nat, d2: nat, n1: string, n2: string)
    requires month < 100 && d1 < 100 && d2 < 100
    requires Join(Folder(year, month, d1), n1) == Join(Folder(year, month, d2), n2)
    ensures d1 == d2 && n1 == n2
  {
    PaddedRoundTrip(d1, 2);
    PaddedRoundTrip(d2, 2);
    var f1, f2 := Folder(year, month, d1), Folder(year, month, d2);
    assert |f1| == |f2|;
    var p := Join(f1, n1);
    assert p[..|f1|] == f1 && p[..|f2|] == f2;
    assert p[|f1| + 1..] == n1 && p[|f2| + 1..] == n2;
    FolderRoundTrip(year, month, d1);
    FolderRoundTrip(year, month, d2);
  }
}
