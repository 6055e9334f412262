/** sanitize_filename: the file-name stem under which a document's PDF and
    JSON sidecar are written. */
module Sanitize {

  /** Longest stem the exporter keeps. */
  const MaxLength: nat := 255

  /** The characters the exporter refuses in a file name. */
  predicate Forbidden(c: char) {
    c in "<>:\"/\\|?*"
  }

  /** Every forbidden character replaced by '-', every other one kept. */
  function ReplaceForbidden(s: string): (r: string)
    ensures |r| == |s|
    ensures forall i :: 0 <= i < |s| ==> r[i] == (if Forbidden(s[i]) then '-' else s[i])
  {
    if s == [] then []
    else ReplaceForbidden(s[..|s| - 1]) + [if Forbidden(s[|s| - 1]) then '-' else s[|s| - 1]]
  }

  function SanitizeFilename(title: string): (r: string)
    ensures |r| == if |title| <= MaxLength then |title| else MaxLength
    ensures forall i :: 0 <= i < |r| ==> r[i] == (if Forbidden(title[i]) then '-' else title[i])
  {
    var replaced := ReplaceForbidden(title);
    if |replaced| <= MaxLength then replaced else replaced[..MaxLength]
  }

  /** A sanitised name never holds a forbidden character. */
  lemma NoForbiddenCharacter(title: string)
    ensures forall c :: c in SanitizeFilename(title) ==> !Forbidden(c)
  {
    var r := SanitizeFilename(title);
    forall c | c in r ensures !Forbidden(c) {
      var i :| 0 <= i < |r| && r[i] == c;
    }
  }

  /** Sanitising twice is sanitising once. */
  lemma SanitizeIdempotent(title: string)
    ensures SanitizeFilename(SanitizeFilename(title)) == SanitizeFilename(title)
  {
    var once := SanitizeFilename(title);
    var twice := SanitizeFilename(once);
    assert |twice| == |once|;
    forall i | 0 <= i < |once| ensures twice[i] == once[i] {
      assert !Forbidden(once[i]) by { NoForbiddenCharacter(title); assert once[i] in once; }
    }
  }

  /** The name of a title that already is safe and short is the title. */
  lemma SafeTitleUnchanged(title: string)
    requires |title| <= MaxLength
    requires forall i :: 0 <= i < |title| ==> !Forbidden(title[i])
    ensures SanitizeFilename(title) == title
  {
    var r := SanitizeFilename(title);
    assert forall i :: 0 <= i < |r| ==> r[i] == title[i];
  }

  lemma ExampleSeparators()
    ensures SanitizeFilename("a/b:c*d") == "a-b-c-d"
  {
    var r := SanitizeFilename("a/b:c*d");
    assert r[1] == '-' && r[3] == '-' && r[5] == '-';
  }
}
