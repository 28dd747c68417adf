/**
 * BibteXMLImporter: the BibTeXML import format. What is modelled is the format sniffing,
 * which reads the input line by line and accepts it as soon as a line contains a match
 * of the regular expression `<bibtex:file .*`, and the format's names.
 *
 * The input is given as the lines BufferedReader.readLine would return. Since `.*` also
 * matches the empty string, a line matches exactly when it contains "<bibtex:file "
 * (with the trailing space).
 */
module BibteXmlImporter {
  import opened JavaStrings

  /** What `<bibtex:file .*` needs to find in a line. */
  const Marker: string := "<bibtex:file "

  /** getFormatName. */
  const FormatName: string := "BibTeXML"

  /** getCLIId. */
  const CliId: string := "bibtexml"

  /** The input holds a line containing the marker. */
  predicate Recognized(lines: seq<string>) {
    exists i :: 0 <= i < |lines| && Contains(lines[i], Marker)
  }

  /** isRecognizedFormat: the reading loop, which stops at the first matching line. */
  method IsRecognizedFormat(lines: seq<string>) returns (r: bool)
    ensures r <==> Recognized(lines)
  {
    var i := 0;
    while i < |lines|
      invariant 0 <= i <= |lines|
      invariant forall k :: 0 <= k < i ==> !Contains(lines[k], Marker)
    {
      var str := lines[i];
      // pat1.matcher(str).find()
      if Contains(str, Marker) {
        return true;
      }
      i := i + 1;
    }
    return false;
  }

  /** An input without lines is not recognized. */
  lemma EmptyInputNotRecognized()
    ensures !Recognized([])
  {
  }

  /** The decision is taken at the first matching line: lines read after it do not matter. */
  lemma RecognizedKeptByMoreLines(lines: seq<string>, more: seq<string>)
    requires Recognized(lines)
    ensures Recognized(lines + more)
  {
    var i :| 0 <= i < |lines| && Contains(lines[i], Marker);
    assert (lines + more)[i] == lines[i];
  }

  /** The marker without its trailing space. */
  const MarkerStem: string := "<bibtex:file"

  /**
   * Without its trailing space the marker is not found: a line that is the stem followed
   * by anything but a space, with no marker later on, is not recognized.
   */
  lemma MarkerWithoutSpaceNotRecognized(tail: string)
    requires tail == [] || tail[0] != ' '
    requires !Contains(tail, Marker)
    ensures !Recognized([MarkerStem + tail])
  {
    var l := MarkerStem + tail;
    var m := |Marker|;
    forall i | 0 <= i <= |l| ensures !OccursAt(l, Marker, i) {
      if i + m <= |l| {
        if i == 0 {
          assert l[..m][m - 1] == tail[0] != Marker[m - 1];
        } else if i < |MarkerStem| {
          assert l[i..i + m][0] == MarkerStem[i] != Marker[0];
        } else {
          assert l[i..i + m] == tail[i - |MarkerStem|..i - |MarkerStem| + m];
          assert !OccursAt(tail, Marker, i - |MarkerStem|);
        }
      }
    }
  }

  /**
   * A marker split across two lines is not found, wherever it is cut, although the
   * concatenated text holds it: each line is tested on its own.
   */
  lemma SplitMarkerNotRecognized(k: nat)
    requires 0 < k < |Marker|
    ensures !Recognized([Marker[..k], Marker[k..]])
    ensures Contains(Marker[..k] + Marker[k..], Marker)
  {
    var lines := [Marker[..k], Marker[k..]];
    forall n | 0 <= n < |lines| ensures !Contains(lines[n], Marker) {
      assert |lines[n]| < |Marker|;
    }
    assert Marker[..k] + Marker[k..] == Marker;
    assert OccursAt(Marker, Marker, 0);
  }

  /** The command-line id is the lower-cased format name. */
  lemma CliIdIsLoweredName()
    ensures ToLower(FormatName) == CliId
  {
    assert ToLower(FormatName)[0] == 'b';
  }
}
