/**
 The pieces from which the login command is assembled give the very text of the source
 (internal/shellutil/shellutil.go), proved piece by piece.
 */
module LoginSource {
  import opened Prelude
  import opened LoginCommand
  import opened ShellQuote

  lemma SubjectText()
    ensures "\"" + ("${" + "remote_shell##*/" + "}") + "\"" + " " == "\"${remote_shell##*/}\" "
  {
    assert "${" + "remote_shell##*/" + "}" == "${remote_shell##*/}";
  }

  lemma CaseHeadText()
    ensures CaseHead("remote_shell##*/", "csh") == "case \"${remote_shell##*/}\" in csh|"
  {
    SubjectText();
    assert "csh" + "|" == "csh|";
    assert "case " + "\"${remote_shell##*/}\" " == "case \"${remote_shell##*/}\" ";
    assert "case \"${remote_shell##*/}\" " + "in " == "case \"${remote_shell##*/}\" in ";
  }

  lemma CshArmText()
    ensures CaseArm("tcsh", "shell_flags=-ic") == "tcsh) shell_flags=-ic ;; "
  {
  }

  lemma OtherArmText()
    ensures CaseArm("*", "shell_flags=-lic") == "*) shell_flags=-lic ;; "
  {
  }

  lemma FirstArmText()
    ensures "case \"${remote_shell##*/}\" in csh|" + "tcsh) shell_flags=-ic ;; "
         == "case \"${remote_shell##*/}\" in csh|tcsh) shell_flags=-ic ;; "
  {
  }

  lemma SecondArmText()
    ensures "case \"${remote_shell##*/}\" in csh|tcsh) shell_flags=-ic ;; " + "*) shell_flags=-lic ;; "
         == "case \"${remote_shell##*/}\" in csh|tcsh) shell_flags=-ic ;; *) shell_flags=-lic ;; "
  {
  }

  lemma CaseText()
    ensures CaseHead("remote_shell##*/", "csh") + CaseArm("tcsh", "shell_flags=-ic")
            + CaseArm("*", "shell_flags=-lic") + ("esac;" + " ")
         == "case \"${remote_shell##*/}\" in csh|tcsh) shell_flags=-ic ;; *) shell_flags=-lic ;; esac; "
  {
    CaseHeadText();
    CshArmText();
    OtherArmText();
    FirstArmText();
    SecondArmText();
    assert "esac;" + " " == "esac; ";
    assert "case \"${remote_shell##*/}\" in csh|tcsh) shell_flags=-ic ;; *) shell_flags=-lic ;; " + "esac; "
        == "case \"${remote_shell##*/}\" in csh|tcsh) shell_flags=-ic ;; *) shell_flags=-lic ;; esac; ";
  }

  lemma PartTexts()
    ensures LOGIN.shellVar + "=" == "remote_shell=" && LOGIN.shellVar + "##*/" == "remote_shell##*/"
    ensures LOGIN.sourceVar + (":-" + LOGIN.fallback) == "SHELL:-/bin/sh"
    ensures LOGIN.flagsVar + ("=" + LOGIN.cshFlags) == "shell_flags=-ic"
    ensures LOGIN.flagsVar + ("=" + LOGIN.otherFlags) == "shell_flags=-lic"
  {
  }

  lemma AssignmentText()
    ensures Assignment("remote_shell=", "SHELL:-/bin/sh") == "remote_shell=${SHELL:-/bin/sh}; "
  {
  }

  lemma HandOverText()
    ensures HandOver("remote_shell", "shell_flags") == "exec \"$remote_shell\" \"$shell_flags\" "
  {
  }

  lemma FixedOfThree(a: string, b: string, c: string)
    ensures Fixed([a, b, c]) == (a + " ") + (b + " ") + (c + " ")
  {
    var none: seq<string> := [];
    assert [a, b, c] == none + [a] + [b] + [c];
    FrontOfAppended(none + [a] + [b], c);
    FrontOfAppended(none + [a], b);
    FrontOfAppended(none, a);
    assert Fixed(none + [a]) == "" + (a + " ") == a + " ";
    assert Fixed(none + [a] + [b]) == (a + " ") + (b + " ");
  }

  lemma ExecText()
    ensures Fixed(EXEC_SH) == "exec /bin/sh -c "
  {
    FixedOfThree("exec", "/bin/sh", "-c");
    assert "exec" + " " == "exec " && "/bin/sh" + " " == "/bin/sh " && "-c" + " " == "-c ";
    assert "exec " + "/bin/sh " == "exec /bin/sh ";
    assert "exec /bin/sh " + "-c " == "exec /bin/sh -c ";
  }

  lemma SetupInTwo(a: string, b: string, c: string, d: string, e: string)
    ensures a + b + c + d + e == a + (b + c + d + e)
  {
  }

  // The fragment, as it is written in the source.
  lemma CommandText(command: string)
    ensures InteractiveLoginCommand(command)
         == "remote_shell=${SHELL:-/bin/sh}; "
            + "case \"${remote_shell##*/}\" in csh|tcsh) shell_flags=-ic ;; *) shell_flags=-lic ;; esac; "
            + "exec \"$remote_shell\" \"$shell_flags\" " + Quote("exec /bin/sh -c " + Quote(command))
  {
    PartTexts();
    AssignmentText();
    HandOverText();
    CaseText();
    ExecText();
    SetupInTwo(Assignment("remote_shell=", "SHELL:-/bin/sh"), CaseHead("remote_shell##*/", "csh"),
               CaseArm("tcsh", "shell_flags=-ic"), CaseArm("*", "shell_flags=-lic"), "esac;" + " ");
  }
}
