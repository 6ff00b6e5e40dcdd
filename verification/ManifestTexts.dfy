/** Which texts, names and contents finalization takes, written out, and what it raises for the rest. */
module ManifestTexts {
  import opened Options
  import opened Manifests
  import opened ManifestIdentity
  import opened ManifestReading
  import Cursors

  // ----- texts -----

  /** The length that limits speak of is that of the UTF-8 encoding. */
  lemma {:induction false} LengthIsUtf8(s: string)
    ensures Utf8Length(s) == |Cursors.Utf8(s)|
  {
    if s != "" { LengthIsUtf8(s[1..]); }
  }

  lemma TextsThatPass(value: string, maxBytes: nat)
    ensures
      var unfit := value == "" || exists i :: 0 <= i < |value| && value[i] == '\0';
      && (CheckText(value, maxBytes) == Some(Invalid) <==> unfit)
      && (CheckText(value, maxBytes) == Some(LimitExceeded) <==> !unfit && |Cursors.Utf8(value)| > maxBytes)
      && (CheckText(value, maxBytes) == None <==> !unfit && |Cursors.Utf8(value)| <= maxBytes)
  {
    LengthIsUtf8(value);
  }

  /** A digest in a manifest is sixty-four lower-case hexadecimal digits. */
  lemma DigestsExactly(s: string)
    ensures IsHexDigest(s) <==> |s| == 64 && forall i :: 0 <= i < |s| ==>
      var code := s[i] as int;
      48 <= code < 58 || 97 <= code < 103
  {
  }

  // ----- names -----

  /** The stretch between two slashes, or an end. */
  predicate Piece(name: string, i: int, j: int) {
    && 0 <= i <= j <= |name|
    && (i == 0 || name[i - 1] == '/') && (j == |name| || name[j] == '/')
    && forall k :: i <= k < j ==> name[k] != '/'
  }

  predicate PieceAt(name: string, i: int, j: int, piece: string) {
    Piece(name, i, j) && name[i..j] == piece
  }

  ghost predicate HasPiece(name: string, piece: string, from: nat) {
    exists i, j :: from <= i && PieceAt(name, i, j, piece)
  }

  /** The segments are the pieces: the first starts the name, the rest start later. */
  lemma {:induction false} SegmentsArePieces(name: string)
    ensures exists j :: Piece(name, 0, j) && Segments(name)[0] == name[..j]
    ensures forall piece :: piece in Segments(name)[1..] <==> HasPiece(name, piece, 1)
  {
    if name == "" {
      assert Piece(name, 0, 0);
    } else {
      var tail := name[1..];
      SegmentsArePieces(tail);
      var first :| Piece(tail, 0, first) && Segments(tail)[0] == tail[..first];
      if name[0] == '/' {
        assert Piece(name, 0, 0);
        forall piece ensures piece in Segments(name)[1..] <==> HasPiece(name, piece, 1) {
          ShiftedPieces(name, piece, 0);
          AnyPiece(tail, piece, first);
          assert Segments(name)[1..] == Segments(tail) && Segments(tail) == [Segments(tail)[0]] + Segments(tail)[1..];
        }
      } else {
        assert Piece(name, 0, first + 1) && name[..first + 1] == [name[0]] + tail[..first];
        forall piece ensures piece in Segments(name)[1..] <==> HasPiece(name, piece, 1) {
          ShiftedPieces(name, piece, 1);
          assert Segments(name)[1..] == Segments(tail)[1..];
          assert HasPiece(name, piece, 1) <==> HasPiece(name, piece, 2) by { NothingStartsAfter(name, piece); }
        }
      }
    }
  }

  lemma PieceMovesUp(name: string, i: int, j: int, piece: string)
    requires name != "" && PieceAt(name[1..], i, j, piece) && (i > 0 || name[0] == '/')
    ensures PieceAt(name, i + 1, j + 1, piece)
  {
    var tail := name[1..];
    assert i > 0 ==> name[i] == tail[i - 1];
    forall k | i + 1 <= k < j + 1 ensures name[k] != '/' { assert name[k] == tail[k - 1]; }
    assert name[i + 1..j + 1] == tail[i..j];
  }

  lemma PieceMovesDown(name: string, i: int, j: int, piece: string)
    requires name != "" && i > 0 && PieceAt(name, i, j, piece)
    ensures PieceAt(name[1..], i - 1, j - 1, piece)
  {
    var tail := name[1..];
    assert i > 1 ==> tail[i - 2] == name[i - 1];
    forall k | i - 1 <= k < j - 1 ensures tail[k] != '/' { assert tail[k] == name[k + 1]; }
    assert tail[i - 1..j - 1] == name[i..j];
  }

  /** Pieces of the tail that start at k or later are the pieces of the name that start one later. */
  lemma ShiftedPieces(name: string, piece: string, k: nat)
    requires name != "" && (k > 0 || name[0] == '/')
    ensures HasPiece(name[1..], piece, k) <==> HasPiece(name, piece, k + 1)
  {
    hide PieceAt;
    if HasPiece(name[1..], piece, k) {
      var i, j :| k <= i && PieceAt(name[1..], i, j, piece);
      PieceMovesUp(name, i, j, piece);
    }
    if HasPiece(name, piece, k + 1) {
      var i, j :| k + 1 <= i && PieceAt(name, i, j, piece);
      PieceMovesDown(name, i, j, piece);
    }
  }

  lemma NothingStartsAfter(name: string, piece: string)
    requires name != "" && name[0] != '/'
    ensures HasPiece(name, piece, 1) <==> HasPiece(name, piece, 2)
  {
  }

  lemma AnyPiece(name: string, piece: string, first: int)
    requires Piece(name, 0, first)
    ensures HasPiece(name, piece, 0) <==> piece == name[..first] || HasPiece(name, piece, 1)
  {
    assert PieceAt(name, 0, first, name[..first]);
    if HasPiece(name, piece, 0) {
      var i, j :| 0 <= i && PieceAt(name, i, j, piece);
      if i == 0 { assert j == first; }
    }
  }

  lemma SegmentIsPiece(name: string, piece: string)
    ensures piece in Segments(name) <==> HasPiece(name, piece, 0)
  {
    SegmentsArePieces(name);
    var first :| Piece(name, 0, first) && Segments(name)[0] == name[..first];
    AnyPiece(name, piece, first);
    assert Segments(name) == [Segments(name)[0]] + Segments(name)[1..];
  }

  /** The names that pass: text within its width, without a backslash or a drive, whose pieces between slashes
      are neither empty nor dots; any other is invalid, unless it is a text that is only too long. */
  lemma NamesThatPass(name: string, limits: Limits)
    ensures
      var text := CheckText(name, limits.maxNameBytes);
      var relative := (|name| > 1 ==> name[1] != ':') && (forall i :: 0 <= i < |name| ==> name[i] != '\\')
        && forall i, j :: Piece(name, i, j) ==> name[i..j] != "" && name[i..j] != "." && name[i..j] != "..";
      && (CheckName(name, limits) == None <==> text == None && relative)
      && (text != None ==> CheckName(name, limits) == text)
      && (text == None && !relative ==> CheckName(name, limits) == Some(Invalid))
  {
    SegmentIsPiece(name, "");
    SegmentIsPiece(name, ".");
    SegmentIsPiece(name, "..");
    hide Segments, CheckText;
    if CheckText(name, limits.maxNameBytes) == None {
      TextsThatPass(name, limits.maxNameBytes);
      if name[0] == '/' { assert PieceAt(name, 0, 0, ""); }
      forall i, j | Piece(name, i, j) ensures HasPiece(name, name[i..j], 0) {
        assert PieceAt(name, i, j, name[i..j]);
      }
    }
  }

  // ----- what is raised -----

  /** The fault of one input among those before it. */
  function FaultOf(artifacts: seq<Artifact>, i: nat, limits: Limits): Option<StoreError>
    requires i < |artifacts|
  {
    var a := artifacts[i];
    var name, role := CheckName(a.name, limits), CheckText(a.role, limits.maxRoleBytes);
    var mediaType := CheckText(a.mediaType, limits.maxMediaTypeBytes);
    if name != None then name else if role != None then role else if mediaType != None then mediaType
    else if exists j :: 0 <= j < i && artifacts[j].name == a.name then Some(Invalid) else None
  }

  /** The first input with a fault decides. */
  ghost predicate FirstFault(artifacts: seq<Artifact>, i: nat, limits: Limits) {
    && i < |artifacts| && FaultOf(artifacts, i, limits) != None
    && forall j :: 0 <= j < i ==> FaultOf(artifacts, j, limits) == None
  }

  ghost function NamesBefore(artifacts: seq<Artifact>, k: nat): set<string>
    requires k <= |artifacts|
  {
    set j | 0 <= j < k :: artifacts[j].name
  }

  lemma {:induction false} CheckedFrom(artifacts: seq<Artifact>, k: nat, limits: Limits)
    requires k <= |artifacts| && forall j :: 0 <= j < k ==> FaultOf(artifacts, j, limits) == None
    ensures
      var fault := CheckInputs(artifacts[k..], limits, NamesBefore(artifacts, k));
      if fault == None then forall j :: 0 <= j < |artifacts| ==> FaultOf(artifacts, j, limits) == None
      else exists i :: FirstFault(artifacts, i, limits) && fault == FaultOf(artifacts, i, limits)
    decreases |artifacts| - k
  {
    hide CheckName, CheckText;
    if k < |artifacts| {
      assert artifacts[k..][0] == artifacts[k] && artifacts[k..][1..] == artifacts[k + 1..];
      assert artifacts[k].name in NamesBefore(artifacts, k) <==> exists j :: 0 <= j < k && artifacts[j].name == artifacts[k].name;
      assert NamesBefore(artifacts, k + 1) == NamesBefore(artifacts, k) + {artifacts[k].name};
      if FaultOf(artifacts, k, limits) == None {
        CheckedFrom(artifacts, k + 1, limits);
      } else {
        assert FirstFault(artifacts, k, limits);
      }
    }
  }

  /** Validation raises the fault of the first faulty input, and without one, a limit exactly where there are
      no inputs or too many. */
  lemma ValidationRaises(artifacts: seq<Artifact>, limits: Limits)
    ensures
      var fault := ValidateInputs(artifacts, limits);
      if forall j :: 0 <= j < |artifacts| ==> FaultOf(artifacts, j, limits) == None
      then fault == if 0 < |artifacts| <= limits.maxArtifacts then None else Some(LimitExceeded)
      else exists i :: FirstFault(artifacts, i, limits) && fault == FaultOf(artifacts, i, limits)
  {
    hide CheckName, CheckText, FaultOf;
    CheckedFrom(artifacts, 0, limits);
    assert artifacts[0..] == artifacts && NamesBefore(artifacts, 0) == {};
  }

  function SizeUpTo(artifacts: seq<Artifact>, n: nat): nat
    requires n <= |artifacts| && AllSourced(artifacts[..n])
  {
    TotalBytes(Describing(artifacts[..n]))
  }

  /** The first of these that cannot be read within the limits, where some bytes are read already. */
  ghost predicate FirstUnread(artifacts: seq<Artifact>, i: nat, limits: Limits, read: nat) {
    && i < |artifacts| && AllSourced(artifacts[..i])
    && (forall j :: 0 <= j < i ==> |artifacts[j].source.value| <= limits.maxArtifactBytes)
    && (i > 0 ==> read + SizeUpTo(artifacts, i) <= limits.maxTotalBytes)
    && var source := artifacts[i].source;
       source == None || |source.value| > limits.maxArtifactBytes
       || read + SizeUpTo(artifacts, i) + |source.value| > limits.maxTotalBytes
  }

  lemma SizeShifts(artifacts: seq<Artifact>, n: nat)
    requires 0 < n <= |artifacts| && AllSourced(artifacts[..n])
    ensures AllSourced(artifacts[1..][..n - 1])
    ensures SizeUpTo(artifacts, n) == |artifacts[0].source.value| + SizeUpTo(artifacts[1..], n - 1)
  {
    var ds := Describing(artifacts[..n]);
    assert artifacts[..n][0] == artifacts[0];
    assert artifacts[1..][..n - 1] == artifacts[..n][1..];
    assert ds[1..] == Describing(artifacts[1..][..n - 1]);
  }

  /** Reading stops at the first input it cannot read within the limits, calling an unreadable source invalid
      and an oversized one, alone or in total, a limit. */
  lemma {:induction false} ReadingRaises(artifacts: seq<Artifact>, limits: Limits, read: nat) returns (i: nat)
    requires ReadSources(artifacts, limits, read).Raised?
    ensures FirstUnread(artifacts, i, limits, read)
    ensures ReadSources(artifacts, limits, read).error == if artifacts[i].source == None then Invalid else LimitExceeded
  {
    if ReadSource(artifacts[0], limits, read).Raised? {
      i := 0;
      assert Describing(artifacts[..0]) == [];
    } else {
      var tail, more := artifacts[1..], read + |artifacts[0].source.value|;
      var k := ReadingRaises(tail, limits, more);
      i := k + 1;
      UnreadShifts(artifacts, k, limits, read);
    }
  }

  lemma UnreadShifts(artifacts: seq<Artifact>, k: nat, limits: Limits, read: nat)
    requires artifacts != [] && artifacts[0].source.Some? && |artifacts[0].source.value| <= limits.maxArtifactBytes
    requires read + |artifacts[0].source.value| <= limits.maxTotalBytes
    requires FirstUnread(artifacts[1..], k, limits, read + |artifacts[0].source.value|)
    ensures FirstUnread(artifacts, k + 1, limits, read)
  {
    assert artifacts[1..][..k] == artifacts[..k + 1][1..];
    assert AllSourced(artifacts[..k + 1]) by {
      assert artifacts[..k + 1] == [artifacts[0]] + artifacts[1..][..k];
    }
    SizeShifts(artifacts, k + 1);
    assert SizeUpTo(artifacts[1..], 0) == 0 by { assert Describing(artifacts[1..][..0]) == []; }
  }
}
