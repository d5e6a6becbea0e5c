/** Cell labels. A schedule cell holds the text "Prenom Nom - Status" of the nurse
    assigned to it; the back end parses it back to find the nurse. */
module Labels {
  import opened Wrappers
  import opened Text

  /** The label the back end builds for a nurse (`f"{prenom} {nom} - {status}"`). */
  function FormatLabel(prenom: string, nom: string, status: string): string {
    prenom + " " + nom + " - " + status
  }

  datatype Parsed = Parsed(prenom: Option<string>, nom: Option<string>, status: Option<string>)

  /** The name part split at its first space: first name and the rest as surname;
      without a space, the whole part is the first name and the surname is empty. */
  function SplitName(left: string): (names: (string, string))
    ensures Stripped(names.0) && Stripped(names.1)
    ensures ' ' !in left ==> names == (Strip(left), "")
  {
    if ' ' in left then
      var words := Split(left, ' ');
      (Strip(words[0]), Strip(Join(' ', words[1..])))
    else
      (Strip(left), "")
  }

  /** The pieces of a label split on '-': the first is the name part, the second
      (when present) the status; later pieces are ignored. */
  function ParseParts(parts: seq<string>): (p: Parsed)
    requires |parts| >= 1
    ensures p.prenom.Some? && p.nom.Some?
    ensures p.status.None? <==> |parts| == 1
  {
    var names := SplitName(Strip(parts[0]));
    Parsed(Some(names.0), Some(names.1), if |parts| > 1 then Some(Strip(parts[1])) else None)
  }

  /** `parse_label`: an absent or empty label yields nothing; otherwise the label
      is split on '-' into name part and status, each stripped. */
  function ParseLabel(raw: Option<string>): (p: Parsed)
    ensures raw.None? || raw == Some("") ==> p == Parsed(None, None, None)
    ensures raw.Some? && raw.value != "" ==> p.prenom.Some? && p.nom.Some?
    ensures raw.Some? && raw.value != "" ==> (p.status.None? <==> '-' !in raw.value)
  {
    if raw.None? || raw.value == "" then Parsed(None, None, None)
    else ParseParts(Split(raw.value, '-'))
  }

  /** With a space in the name part, the first name is what precedes the first
      space and the surname everything after it (later spaces included). */
  lemma SplitNameAtFirstSpace(first: string, rest: string)
    requires ' ' !in first
    ensures SplitName(first + [' '] + rest) == (Strip(first), Strip(rest))
  {
    var left := first + [' '] + rest;
    assert Split(left, ' ') == [first] + Split(rest, ' ') by {
      SplitAfter(first, ' ', rest);
    }
    assert Join(' ', Split(rest, ' ')) == rest by {
      JoinSplit(rest, ' ');
    }
    assert ' ' in left by { assert left[|first|] == ' '; }
  }

  /** The label format splits on '-' into the name part and the status. */
  lemma FormatSplit(prenom: string, nom: string, status: string)
    requires '-' !in prenom && '-' !in nom && '-' !in status
    ensures Split(FormatLabel(prenom, nom, status), '-') == [prenom + " " + nom + " ", " " + status]
  {
    var name := prenom + " " + nom + " ";
    assert FormatLabel(prenom, nom, status) == name + ['-'] + (" " + status);
    SplitAfter(name, '-', " " + status);
  }

  /** A one-word first name and a stripped surname come back out of the name part. */
  lemma SplitNameFormat(prenom: string, nom: string)
    requires prenom != "" && Stripped(prenom) && ' ' !in prenom
    requires Stripped(nom)
    ensures SplitName(Strip(prenom + " " + nom + " ")) == (prenom, nom)
  {
    if nom == "" {
      NoSurname(prenom, nom);
      SplitNameFirstOnly(prenom);
    } else {
      SplitNameBoth(prenom, nom);
    }
  }

  /** Without a surname the name part ends in two spaces. */
  lemma NoSurname(prenom: string, nom: string)
    requires nom == ""
    ensures prenom + " " + nom + " " == prenom + "  "
  {
  }

  /** An empty surname: the label's name part is the first name and two spaces. */
  lemma SplitNameFirstOnly(prenom: string)
    requires prenom != "" && Stripped(prenom) && ' ' !in prenom
    ensures SplitName(Strip(prenom + "  ")) == (prenom, "")
  {
    StripPadded("", prenom, "  ");
    assert "" + prenom + "  " == prenom + "  ";
    StripStripped(prenom);
  }

  /** A non-empty surname follows the first space of the name part. */
  lemma SplitNameBoth(prenom: string, nom: string)
    requires prenom != "" && Stripped(prenom) && ' ' !in prenom
    requires nom != "" && Stripped(nom)
    ensures SplitName(Strip(prenom + " " + nom + " ")) == (prenom, nom)
  {
    var core := prenom + " " + nom;
    assert Stripped(core);
    StripPadded("", core, " ");
    assert "" + core + " " == prenom + " " + nom + " ";
    assert core == prenom + [' '] + nom;
    SplitNameAtFirstSpace(prenom, nom);
    StripStripped(prenom);
    StripStripped(nom);
  }

  /** `parse_label` undoes the label format: the first name (one word without
      space or '-'), the surname and the status (without '-', already trimmed)
      come back unchanged. */
  lemma ParseFormatRoundTrip(prenom: string, nom: string, status: string)
    requires prenom != "" && Stripped(prenom) && ' ' !in prenom && '-' !in prenom
    requires Stripped(nom) && '-' !in nom
    requires Stripped(status) && '-' !in status
    ensures ParseLabel(Some(FormatLabel(prenom, nom, status)))
            == Parsed(Some(prenom), Some(nom), Some(status))
  {
    var lbl := FormatLabel(prenom, nom, status);
    assert ParseLabel(Some(lbl)) == ParseParts([prenom + " " + nom + " ", " " + status]) by {
      assert |lbl| >= |prenom| > 0;
      FormatSplit(prenom, nom, status);
    }
    PartsOfFormat(prenom, nom, status);
  }

  /** The two pieces of a formatted label read back as its three fields. */
  lemma PartsOfFormat(prenom: string, nom: string, status: string)
    requires prenom != "" && Stripped(prenom) && ' ' !in prenom
    requires Stripped(nom) && Stripped(status)
    ensures ParseParts([prenom + " " + nom + " ", " " + status]) == Parsed(Some(prenom), Some(nom), Some(status))
  {
    SplitNameFormat(prenom, nom);
    StripPadded(" ", status, "");
    assert " " + status + "" == " " + status;
  }

  /** Only the first two '-'-separated pieces are read: anything after a second
      '-' is dropped. */
  lemma ParseIgnoresExtraSegments(name: string, status: string, extra: string)
    requires '-' !in name && '-' !in status
    ensures ParseLabel(Some(name + "-" + status + "-" + extra)) == ParseLabel(Some(name + "-" + status))
  {
    SplitThree(name, status, extra);
    SplitTwo(name, status);
  }

  lemma SplitThree(name: string, status: string, extra: string)
    requires '-' !in name && '-' !in status
    ensures var long := name + "-" + status + "-" + extra;
            long != "" && Split(long, '-') == [name, status] + Split(extra, '-')
  {
    var long := name + "-" + status + "-" + extra;
    assert long == name + ['-'] + (status + ['-'] + extra);
    SplitAfter(name, '-', status + ['-'] + extra);
    SplitAfter(status, '-', extra);
    assert long[|name|] == '-';
  }

  lemma SplitTwo(name: string, status: string)
    requires '-' !in name && '-' !in status
    ensures var short := name + "-" + status;
            short != "" && Split(short, '-') == [name, status]
  {
    var short := name + "-" + status;
    assert short == name + ['-'] + status;
    SplitAfter(name, '-', status);
    assert short[|name|] == '-';
  }
}
