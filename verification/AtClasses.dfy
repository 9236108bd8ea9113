/** The classes of lines on the AT channel: which lines are in which, and how lines become events. */
module AtClasses {
  import opened Wire
  import opened AtModel

  /** The final lines of success and of error, and the first lines of two-line short messages, by how they begin; see
      annex B of 3GPP TS 27.007. */
  lemma ClassesExactly(line: string)
    ensures IsSuccess(line) <==>
              StartsWith(line, "OK") || StartsWith(line, "+QIND: \"FOTA\",\"END\",0") || StartsWith(line, "CONNECT")
    ensures IsError(line) <==>
              || StartsWith(line, "ERROR") || StartsWith(line, "+CMS ERROR:") || StartsWith(line, "+CME ERROR:")
              || StartsWith(line, "NO CARRIER") || StartsWith(line, "NO ANSWER") || StartsWith(line, "NO DIALTONE")
              || StartsWith(line, "COMMAND NOT SUPPORT")
    ensures IsFinal(line) <==> IsSuccess(line) || IsError(line)
    ensures IsSms(line) <==>
              || StartsWith(line, "+CMT:") || StartsWith(line, "+CDS:") || StartsWith(line, "+CBM:")
              || StartsWith(line, "+CMTI:")
  {
    hide StartsWith;
    assert SUCCESS[0] == "OK" && SUCCESS[1] == "+QIND: \"FOTA\",\"END\",0" && SUCCESS[2] == "CONNECT";
    assert ERRORS[0] == "ERROR" && ERRORS[1] == "+CMS ERROR:" && ERRORS[2] == "+CME ERROR:" && ERRORS[3] == "NO CARRIER";
    assert ERRORS[4] == "NO ANSWER" && ERRORS[5] == "NO DIALTONE" && ERRORS[6] == "COMMAND NOT SUPPORT";
    assert SMS[0] == "+CMT:" && SMS[1] == "+CDS:" && SMS[2] == "+CBM:" && SMS[3] == "+CMTI:";
  }

  /** What it is to start with a prefix, and with a digit. */
  lemma BeginningsExactly(line: string, prefix: string)
    ensures StartsWith(line, prefix) <==> exists rest: string :: line == prefix + rest
    ensures StartsWithDigit(line) <==> exists rest: string, d: char :: line == [d] + rest && d in "0123456789"
  {
    if StartsWith(line, prefix) {
      assert line == prefix + line[|prefix|..];
    }
    if StartsWithDigit(line) {
      var digits := "0123456789";
      assert line == [line[0]] + line[1..];
      assert digits[line[0] as int - '0' as int] == line[0];
    }
  }

  /** Two prefixes that differ at a place both have. */
  ghost predicate Clash(p: string, q: string) {
    exists i :: 0 <= i < |p| && i < |q| && p[i] != q[i]
  }

  lemma ClashApart(line: string, p: string, q: string)
    requires StartsWith(line, p) && StartsWith(line, q)
    ensures !Clash(p, q)
  {
    forall i | 0 <= i < |p| && i < |q| ensures p[i] == q[i] {
      assert line[..|p|][i] == line[i] == line[..|q|][i];
    }
  }

  ghost predicate AllClash(ps: seq<string>, qs: seq<string>) {
    forall i, j :: 0 <= i < |ps| && 0 <= j < |qs| ==> Clash(ps[i], qs[j])
  }

  lemma AnyApart(line: string, ps: seq<string>, qs: seq<string>)
    requires AllClash(ps, qs) && StartsWithAny(line, ps)
    ensures !StartsWithAny(line, qs)
  {
    hide StartsWith, Clash;
    var i :| 0 <= i < |ps| && StartsWith(line, ps[i]);
    forall j | 0 <= j < |qs| ensures !StartsWith(line, qs[j]) {
      if StartsWith(line, qs[j]) {
        ClashApart(line, ps[i], qs[j]);
      }
    }
  }

  lemma Differ(p: string, q: string, i: nat)
    requires i < |p| && i < |q| && p[i] != q[i]
    ensures Clash(p, q)
  {
  }

  lemma SuccessClashes()
    ensures AllClash(SUCCESS, ERRORS)
  {
    hide Clash;
    forall i, j | 0 <= i < |SUCCESS| && 0 <= j < |ERRORS| ensures Clash(SUCCESS[i], ERRORS[j]) {
      Differ(SUCCESS[i], ERRORS[j], if i == 1 && (j == 1 || j == 2) then 1 else if i == 2 && j == 6 then 2 else 0);
    }
  }

  lemma SmsClashes()
    ensures AllClash(SMS, SUCCESS) && AllClash(SMS, ERRORS)
  {
    hide Clash;
    forall i, j | 0 <= i < |SMS| && 0 <= j < |SUCCESS| ensures Clash(SMS[i], SUCCESS[j]) {
      Differ(SMS[i], SUCCESS[j], if j == 1 then 1 else 0);
    }
    forall i, j | 0 <= i < |SMS| && 0 <= j < |ERRORS| ensures Clash(SMS[i], ERRORS[j]) {
      Differ(SMS[i], ERRORS[j], if j == 1 || j == 2 then if i == 1 || i == 2 then 2 else 3 else 0);
    }
  }

  /** No line is of two classes. */
  lemma ClassesAreDisjoint(line: string)
    ensures !(IsSuccess(line) && IsError(line)) && !(IsSms(line) && IsFinal(line))
  {
    hide StartsWithAny;
    SuccessClashes();
    SmsClashes();
    hide AllClash;
    if IsSuccess(line) {
      AnyApart(line, SUCCESS, ERRORS);
    }
    if IsSms(line) {
      AnyApart(line, SMS, SUCCESS);
      AnyApart(line, SMS, ERRORS);
    }
  }

  // ---- pairing ----

  /** The line is the second of a short message: the one before begins a short message and is not itself a second. */
  predicate Paired(lines: seq<string>, i: nat)
    requires i < |lines|
  {
    i > 0 && IsSms(lines[i - 1]) && !Paired(lines, i - 1)
  }

  /** What becomes of the lines from i on: a second line goes with its first, a first line alone at the end is lost, and
      any other line is passed on by itself. */
  function Passed(lines: seq<string>, i: nat): seq<Event>
    requires i <= |lines|
    decreases |lines| - i
  {
    if i == |lines| then []
    else
      (if Paired(lines, i) then [Sms(lines[i - 1], lines[i])] else if IsSms(lines[i]) then [] else [Line(lines[i])])
      + Passed(lines, i + 1)
  }

  lemma {:induction false} DispatchFrom(lines: seq<string>, i: nat)
    requires i <= |lines| && (i < |lines| ==> !Paired(lines, i))
    ensures Dispatch(lines[i..]) == Passed(lines, i)
    decreases |lines| - i
  {
    hide IsSms;
    if i < |lines| {
      var rest := lines[i..];
      assert rest[1..] == lines[i + 1..];
      if !IsSms(lines[i]) {
        DispatchFrom(lines, i + 1);
      } else if i + 1 < |lines| {
        assert rest[2..] == lines[i + 2..] && rest[1] == lines[i + 1];
        assert Paired(lines, i + 1);
        DispatchFrom(lines, i + 2);
        AppendNone(Passed(lines, i + 1));
      } else {
        assert Passed(lines, i + 1) == [];
      }
    }
  }

  /** The reader passes every line on by itself exactly when it is neither the first nor the second of a short message. */
  lemma {:induction false} DispatchExactly(lines: seq<string>)
    ensures Dispatch(lines) == Passed(lines, 0)
  {
    assert lines[0..] == lines;
    DispatchFrom(lines, 0);
  }
}
