/** The SCP file header control line, `C<mode> <length> <name>\n`, and the
    way the receiving side reads it. */
module FileHeader {
  import opened Outcomes
  import opened Text

  /** The permission bits every upload announces. */
  const Mode: string := "0644"

  /** The fields the receiving side takes from a header line. */
  datatype Header = Header(mode: string, size: nat, name: string)

  /** The header line for a file of `size` bytes called `name`: a 'C', the
      fixed mode, the decimal size and the name, separated by single spaces
      and terminated by a newline. */
  function HeaderLine(size: nat, name: string): (line: string)
    ensures |line| == 8 + |Decimal(size)| + |name|
    ensures line[..6] == "C0644 " && line[|line| - 1] == '\n'
  {
    "C" + Mode + " " + Decimal(size) + " " + name + "\n"
  }

  /** The header as the bytes written to the channel. */
  function HeaderBytes(size: nat, name: string): seq<Byte> {
    Latin1(HeaderLine(size, name))
  }

  /** The receiving side's reading of a control line: 'C', four mode
      characters, a space, decimal digits up to the next space, then the name
      up to the newline that ends the line. */
  function ParseHeaderLine(line: string): Option<Header> {
    if |line| < 6 || line[0] != 'C' || line[5] != ' ' then None
    else
      var body := line[6..];
      var digits := TakeUntil(body, ' ');
      if |digits| == 0 || |digits| == |body| || !IsDigits(digits) then None
      else
        var after := body[|digits| + 1..];
        var name := TakeUntil(after, '\n');
        if after != name + "\n" then None
        else Some(Header(line[1..5], ParseDecimal(digits), name))
  }

  /** The receiving side's reading of the header bytes. */
  function ParseHeaderBytes(bytes: seq<Byte>): Option<Header> {
    ParseHeaderLine(Chars(bytes))
  }

  /** Any header line this side writes is read back with the same mode, size
      and name, provided the name contains no newline (the protocol has no
      escape for one). */
  lemma HeaderLineRoundTrip(size: nat, name: string)
    requires '\n' !in name
    ensures ParseHeaderLine(HeaderLine(size, name)) == Some(Header(Mode, size, name))
  {
    var line := HeaderLine(size, name);
    var digits := Decimal(size);
    assert line[..6] == "C0644 ";
    assert line[0] == 'C' && line[5] == ' ' && line[1..5] == Mode;
    var body := line[6..];
    assert body == digits + [' '] + (name + "\n");
    assert ' ' !in digits;
    TakeUntilDelimited(digits, ' ', name + "\n");
    assert body[|digits| + 1..] == name + "\n";
    TakeUntilDelimited(name, '\n', []);
    assert name + "\n" == name + ['\n'] + [];
    ParseDecimalOfDecimal(size);
  }

  /** The same round trip on the bytes that actually cross the channel,
      for names whose characters each fit in one byte. */
  lemma HeaderBytesRoundTrip(size: nat, name: string)
    requires '\n' !in name && IsLatin1(name)
    ensures ParseHeaderBytes(HeaderBytes(size, name)) == Some(Header(Mode, size, name))
  {
    var line := HeaderLine(size, name);
    assert IsLatin1(line) by {
      assert line == "C0644 " + Decimal(size) + " " + name + "\n";
      forall i | 0 <= i < |line|
        ensures line[i] as int < 256
      {
        if i >= 7 + |Decimal(size)| && i < |line| - 1 {
          assert line[i] == name[i - 7 - |Decimal(size)|];
        } else if 6 <= i < 6 + |Decimal(size)| {
          assert line[i] == Decimal(size)[i - 6];
          assert IsDigit(line[i]);
        }
      }
    }
    CharsOfLatin1(line);
    HeaderLineRoundTrip(size, name);
  }

  /** The header for a 4096-byte file named report.xml. */
  lemma ReportHeaderExample()
    ensures HeaderLine(4096, "report.xml") == "C0644 4096 report.xml\n"
  {
    assert Decimal(4096) == "4096" by {
      assert Decimal(4) == "4";
      assert Decimal(40) == "40";
      assert Decimal(409) == "409";
    }
  }
}
