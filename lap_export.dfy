/**
 * The CSV text of the lap export: a fixed header line, then one line per lap
 * with its number, its time and its split, both without centiseconds. Turning
 * the text into a downloadable file is not part of this model.
 */
module LapExport {
  import opened Digits
  import opened TimeFormat

  const CsvHeader: string := "Lap Number,Total Time,Split Time"

  /** `Lap n,<lap time>,<split time>`. */
  function CsvRow(number: nat, lapTime: nat, splitTime: nat): string {
    "Lap " + Decimal(number) + "," + FormatTime(lapTime, false) + "," + FormatTime(splitTime, false)
  }

  /** One row per lap, numbered from 1, pairing each lap with its split. */
  function CsvRows(laps: seq<nat>, splits: seq<nat>): (rows: seq<string>)
    requires |splits| == |laps|
    ensures |rows| == |laps|
  {
    seq(|laps|, i requires 0 <= i < |laps| => CsvRow(i + 1, laps[i], splits[i]))
  }

  /** The exported text: the header, a newline, and the rows joined by newlines. */
  function CsvText(laps: seq<nat>, splits: seq<nat>): string
    requires |splits| == |laps|
  {
    CsvHeader + "\n" + Join(CsvRows(laps, splits), '\n')
  }

  /** A character that is neither a digit, `:` nor `.` never occurs in a displayed time. */
  lemma {:induction false} NotInTime(ms: nat, includeMs: bool, c: char)
    requires !IsDigit(c) && c != ':' && c != '.'
    ensures c !in FormatTime(ms, includeMs)
  {
    FormatTimeAlphabet(ms, includeMs);
  }

  /** A row has no line break and exactly the three comma-separated fields it was built from. */
  lemma {:induction false} CsvRowFields(number: nat, lapTime: nat, splitTime: nat)
    ensures '\n' !in CsvRow(number, lapTime, splitTime)
    ensures Split(CsvRow(number, lapTime, splitTime), ',') ==
      ["Lap " + Decimal(number), FormatTime(lapTime, false), FormatTime(splitTime, false)]
  {
    var name, lap, split := "Lap " + Decimal(number), FormatTime(lapTime, false), FormatTime(splitTime, false);
    NotInTime(lapTime, false, ',');
    NotInTime(splitTime, false, ',');
    NotInTime(lapTime, false, '\n');
    NotInTime(splitTime, false, '\n');
    assert ',' !in name && '\n' !in name by {
      assert forall i :: 4 <= i < |name| ==> IsDigit(name[i]);
    }
    var row := CsvRow(number, lapTime, splitTime);
    assert row == name + [','] + (lap + [','] + split);
    SplitAtSeparator(name, lap + [','] + split, ',');
    SplitAtSeparator(lap, split, ',');
    SplitWithoutSeparator(split, ',');
  }

  /** Split into lines, the export is the header and then exactly one line per lap, in lap order. */
  lemma {:induction false} CsvLines(laps: seq<nat>, splits: seq<nat>)
    requires |splits| == |laps|
    ensures Split(CsvText(laps, splits), '\n') ==
      [CsvHeader] + (if laps == [] then [""] else CsvRows(laps, splits))
  {
    var rows := CsvRows(laps, splits);
    assert '\n' !in CsvHeader;
    SplitAtSeparator(CsvHeader, Join(rows, '\n'), '\n');
    if laps != [] {
      forall i | 0 <= i < |rows|
        ensures '\n' !in rows[i]
      {
        CsvRowFields(i + 1, laps[i], splits[i]);
      }
      SplitJoin(rows, '\n');
    }
  }

  /** Line `i + 1` of the export is lap `i + 1`'s row: its number, then its time, then its split. */
  lemma {:induction false} CsvLapFields(laps: seq<nat>, splits: seq<nat>, i: nat)
    requires |splits| == |laps| && i < |laps|
    ensures |Split(CsvText(laps, splits), '\n')| == |laps| + 1
    ensures Split(Split(CsvText(laps, splits), '\n')[i + 1], ',') ==
      ["Lap " + Decimal(i + 1), FormatTime(laps[i], false), FormatTime(splits[i], false)]
  {
    CsvLines(laps, splits);
    CsvRowFields(i + 1, laps[i], splits[i]);
  }
}
