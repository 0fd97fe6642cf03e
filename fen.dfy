/**
 * Position keys of the v4.0 opening files (bin/evaluate.py).  A position is a FEN
 * string, Forsyth-Edwards Notation as defined in section 16.1 of the PGN standard
 * (six space-separated fields: placement, side to move, castling rights, en-passant
 * target, halfmove clock, fullmove number), or the token "start" for the initial
 * position.
 */
module Fen {
  import opened Text

  const START_FEN: string := "rnbqkbnr/pppppppp/8/8/8/8/PPPPPPPP/RNBQKBNR w KQkq - 0 1"

  /** The fields of a FEN, as fen.split(' ') gives them. */
  function Fields(fen: string): (parts: seq<string>)
    ensures |parts| >= 1
    ensures forall k :: 0 <= k < |parts| ==> ' ' !in parts[k]
  {
    var parts := Split(fen, " ");
    assert forall k :: 0 <= k < |parts| ==> ' ' !in parts[k] by {
      forall k | 0 <= k < |parts| ensures ' ' !in parts[k] {
        ContainsChar(parts[k], ' ');
      }
    }
    parts
  }

  /** A string is determined by its fields. */
  lemma FieldsInjective(a: string, b: string)
    requires Fields(a) == Fields(b)
    ensures a == b
  {
    assert a == Join(" ", Fields(a));
  }

  /** Joining space-free fields with spaces gives a FEN with exactly those fields. */
  lemma FieldsOfJoin(parts: seq<string>)
    requires |parts| >= 1
    requires forall k :: 0 <= k < |parts| ==> ' ' !in parts[k]
    ensures Fields(Join(" ", parts)) == parts
  {
    SplitJoinChar(parts, ' ');
  }

  lemma StartTokenHasOneField()
    ensures Fields("start") == ["start"]
  {
    FieldsOfJoin(["start"]);
  }

  /** The six fields of the initial position. */
  const START_FIELDS: seq<string> := ["rnbqkbnr/pppppppp/8/8/8/8/PPPPPPPP/RNBQKBNR", "w", "KQkq", "-", "0", "1"]

  lemma StartFenFields()
    ensures Fields(START_FEN) == START_FIELDS
  {
    StartFenIsJoin();
    StartFieldsPlain();
    FieldsOfJoin(START_FIELDS);
  }

  lemma StartFenIsJoin()
    ensures Join(" ", START_FIELDS) == START_FEN
  {
    assert START_FIELDS[1..][1..][1..][1..][1..] == ["1"];
  }

  lemma StartFieldsPlain()
    ensures forall k :: 0 <= k < |START_FIELDS| ==> ' ' !in START_FIELDS[k]
  {
    assert forall i :: 0 <= i < |START_FIELDS[0]| ==> START_FIELDS[0][i] != ' ';
  }

  /** The canonical placeholders that normalisation writes into fields 4 to 6. */
  const RESET_FIELDS: seq<string> := ["-", "0", "1"]

  /**
   * bin/evaluate.py normalize_fen: a six-field FEN keeps placement, side to move and
   * castling rights, and gets "-", "0", "1" as en-passant target and counters;
   * "start" and every string without exactly six fields are returned unchanged.
   */
  function NormalizeFen(fen: string): (r: string)
    ensures fen == "start" ==> r == "start"
    ensures fen != "start" && |Fields(fen)| == 6 ==> Fields(r) == Fields(fen)[..3] + RESET_FIELDS
    ensures fen != "start" && |Fields(fen)| != 6 ==> r == fen
  {
    if fen == "start" then "start"
    else
      var parts := Fields(fen);
      if |parts| == 6 then
        var kept := parts[..3] + RESET_FIELDS;
        FieldsOfJoin(kept);
        Join(" ", kept)
      else fen
  }

  /** Normalising twice is normalising once. */
  lemma NormalizeIdempotent(fen: string)
    ensures NormalizeFen(NormalizeFen(fen)) == NormalizeFen(fen)
  {
    var r := NormalizeFen(fen);
    if fen != "start" && |Fields(fen)| == 6 {
      StartTokenHasOneField();
      assert r != "start";
      assert Fields(NormalizeFen(r)) == Fields(r);
      FieldsInjective(NormalizeFen(r), r);
    }
  }

  /**
   * Two six-field FENs normalise to the same key exactly when they agree on
   * placement, side to move and castling rights; en-passant target and move
   * counters never matter.
   */
  lemma NormalizeSamePosition(a: string, b: string)
    requires |Fields(a)| == 6 && |Fields(b)| == 6
    ensures NormalizeFen(a) == NormalizeFen(b) <==> Fields(a)[..3] == Fields(b)[..3]
  {
    StartTokenHasOneField();
    if Fields(a)[..3] == Fields(b)[..3] {
      FieldsInjective(NormalizeFen(a), NormalizeFen(b));
    }
    if NormalizeFen(a) == NormalizeFen(b) {
      assert Fields(NormalizeFen(a))[..3] == Fields(a)[..3];
    }
  }

  /**
   * bin/evaluate.py fen_key: the looser identity used to match positions; "start"
   * stands for the standard initial FEN, and any string with at least three fields
   * keeps its first three and gets " - 0 1".
   */
  function FenKey(fen: string): (r: string)
    ensures fen == "start" ==> r == START_FEN
    ensures fen != "start" && |Fields(fen)| >= 3 ==> Fields(r) == Fields(fen)[..3] + RESET_FIELDS
    ensures fen != "start" && |Fields(fen)| < 3 ==> r == fen
  {
    if fen == "start" then START_FEN
    else
      var parts := Fields(fen);
      if |parts| >= 3 then
        var r := Join(" ", parts[..3]) + " - 0 1";
        assert r == Join(" ", parts[..3] + RESET_FIELDS) by {
          var p3 := parts[..3];
          JoinAppend(" ", p3, "-");
          JoinAppend(" ", p3 + ["-"], "0");
          JoinAppend(" ", p3 + ["-"] + ["0"], "1");
          assert p3 + ["-"] + ["0"] + ["1"] == p3 + RESET_FIELDS;
        }
        FieldsOfJoin(parts[..3] + RESET_FIELDS);
        r
      else fen
  }

  /** On six-field FENs the loose key and the normalised key coincide. */
  lemma FenKeyAgreesWithNormalize(fen: string)
    requires |Fields(fen)| == 6
    ensures FenKey(fen) == NormalizeFen(fen)
  {
    StartTokenHasOneField();
    FieldsInjective(FenKey(fen), NormalizeFen(fen));
  }

  /** "start" and the standard initial FEN have the same key, which is that FEN. */
  lemma FenKeyOfStart()
    ensures FenKey("start") == START_FEN
    ensures FenKey(START_FEN) == START_FEN
  {
    StartFenFields();
    StartTokenHasOneField();
    FieldsInjective(FenKey(START_FEN), START_FEN);
  }

  /** Taking the key of a key changes nothing. */
  lemma FenKeyIdempotent(fen: string)
    ensures FenKey(FenKey(fen)) == FenKey(fen)
  {
    StartTokenHasOneField();
    if fen == "start" {
      FenKeyOfStart();
    } else if |Fields(fen)| >= 3 {
      var r := FenKey(fen);
      assert r != "start";
      FieldsInjective(FenKey(r), r);
    }
  }

  /** Two FENs of at least three fields share a key exactly when their first three fields agree. */
  lemma FenKeySamePosition(a: string, b: string)
    requires a != "start" && b != "start"
    requires |Fields(a)| >= 3 && |Fields(b)| >= 3
    ensures FenKey(a) == FenKey(b) <==> Fields(a)[..3] == Fields(b)[..3]
  {
    if Fields(a)[..3] == Fields(b)[..3] {
      FieldsInjective(FenKey(a), FenKey(b));
    }
    if FenKey(a) == FenKey(b) {
      assert Fields(FenKey(a))[..3] == Fields(a)[..3];
    }
  }

  /** bin/evaluate.py state_to_fen: "start" becomes the initial FEN, anything else is already a FEN. */
  function StateToFen(state: string): (r: string)
    ensures state == "start" ==> r == START_FEN
    ensures state != "start" ==> r == state
  {
    if state == "start" then START_FEN else state
  }

  /** Expanding "start" does not change which position a state's key names. */
  lemma FenKeyOfStateToFen(state: string)
    ensures FenKey(StateToFen(state)) == FenKey(state)
  {
    FenKeyOfStart();
  }
}
