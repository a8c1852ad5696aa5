/**
 * The subject line "UID=u, CN=c, O=o": every field comes back whole, commas
 * inside it included, as long as it holds no '='.
 */
module CertificateExamples {
  import opened Wrappers
  import opened Certificate

  function SubjectLine(u: string, c: string, o: string): string {
    "UID=" + u + ", CN=" + c + ", O=" + o
  }

  /** The three fields of a subject line come back as written. */
  lemma SubjectLineFields(u: string, c: string, o: string)
    requires '=' !in u && '=' !in c && '=' !in o
    ensures IssuerField(SubjectLine(u, c, o), "UID") == Some(u)
    ensures IssuerField(SubjectLine(u, c, o), "CN") == Some(c)
    ensures IssuerField(SubjectLine(u, c, o), "O") == Some(o)
  {
    UidField(u, c, o);
    CnField(u, c, o);
    OField(u, c, o);
  }

  /** The worked example: `UID=ABC123, CN=Jane Doe, O=Example, Inc.`. */
  lemma SubjectExample()
    ensures IssuerField(SubjectLine("ABC123", "Jane Doe", "Example, Inc."), "CN") == Some("Jane Doe")
    ensures IssuerField(SubjectLine("ABC123", "Jane Doe", "Example, Inc."), "UID") == Some("ABC123")
    ensures IssuerField(SubjectLine("ABC123", "Jane Doe", "Example, Inc."), "O") == Some("Example, Inc.")
  {
    SubjectLineFields("ABC123", "Jane Doe", "Example, Inc.");
  }

  /** A match shown to be the reported one determines IssuerField. */
  lemma ReportedCapture(s: string, key: string, i: nat, n: nat)
    requires IsReportedMatch(s, key, i, n)
    ensures IssuerField(s, key) == Some(s[i + |key| + 1..i + |key| + 1 + n])
  {
    IssuerFieldIsReportedMatch(s, key);
    var i': nat, n': nat :| IsReportedMatch(s, key, i', n')
                             && IssuerField(s, key).value == s[i' + |key| + 1..i' + |key| + 1 + n'];
    ReportedMatchUnique(s, key, i, n, i', n');
  }

  /** Where the '=' signs of a subject line stand. */
  lemma EqualsSigns(u: string, c: string, o: string)
    requires '=' !in u && '=' !in c && '=' !in o
    ensures var s := SubjectLine(u, c, o);
      forall p :: 0 <= p < |s| && s[p] == '=' ==>
        p == 3 || p == |u| + 8 || p == |u| + |c| + 12
  {
  }

  lemma UidField(u: string, c: string, o: string)
    requires '=' !in u && '=' !in c && '=' !in o
    ensures IssuerField(SubjectLine(u, c, o), "UID") == Some(u)
  {
    var s := SubjectLine(u, c, o);
    var a := |u| + 4;
    assert s[0..3] == "UID";
    assert s[4..4 + |u|] == u;
    assert UpperRunThenEq(s, a + 2);
    assert IsFieldMatch(s, "UID", 0, |u|);
    forall n': nat | |u| < n' ensures !IsFieldMatch(s, "UID", 0, n') {
      if n' <= |u| + 4 {
        assert !FieldEnd(s, 4 + n');
      } else if 4 + n' <= |s| {
        assert s[4..4 + n'][|u| + 4] == '=';
      }
    }
    assert IsReportedMatch(s, "UID", 0, |u|);
    ReportedCapture(s, "UID", 0, |u|);
  }

  lemma CnField(u: string, c: string, o: string)
    requires '=' !in u && '=' !in c && '=' !in o
    ensures IssuerField(SubjectLine(u, c, o), "CN") == Some(c)
  {
    var s := SubjectLine(u, c, o);
    var i := |u| + 6;
    assert s[i..i + 2] == "CN";
    assert s[i + 3..i + 3 + |c|] == c;
    assert UpperRunThenEq(s, i + 3 + |c| + 2);
    assert IsFieldMatch(s, "CN", i, |c|);
    EqualsSigns(u, c, o);
    forall i': nat, n': nat | i' < i ensures !IsFieldMatch(s, "CN", i', n') {
      if i' == 1 {
        assert s[i'..i' + 2][0] == 'I';
      } else if i' + 2 < |s| {
        assert s[i' + 2] != '=';
      }
    }
    forall n': nat | |c| < n' ensures !IsFieldMatch(s, "CN", i, n') {
      if n' <= |c| + 3 {
        assert !FieldEnd(s, i + 3 + n');
      } else if i + 3 + n' <= |s| {
        assert s[i + 3..i + 3 + n'][|c| + 3] == '=';
      }
    }
    assert IsReportedMatch(s, "CN", i, |c|);
    ReportedCapture(s, "CN", i, |c|);
  }

  lemma OField(u: string, c: string, o: string)
    requires '=' !in u && '=' !in c && '=' !in o
    ensures IssuerField(SubjectLine(u, c, o), "O") == Some(o)
  {
    var s := SubjectLine(u, c, o);
    var i := |u| + |c| + 11;
    assert s[i..i + 1] == "O";
    assert s[i + 2..i + 2 + |o|] == o;
    assert IsFieldMatch(s, "O", i, |o|);
    EqualsSigns(u, c, o);
    forall i': nat, n': nat | i' < i ensures !IsFieldMatch(s, "O", i', n') {
      if i' == 2 {
        assert s[i'..i' + 1][0] == 'D';
      } else if i' == |u| + 7 {
        assert s[i'..i' + 1][0] == 'N';
      } else if i' + 1 < |s| {
        assert s[i' + 1] != '=';
      }
    }
    assert IsReportedMatch(s, "O", i, |o|);
    ReportedCapture(s, "O", i, |o|);
  }
}
