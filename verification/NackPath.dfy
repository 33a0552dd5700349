/** The feedback branch that expands a request and has the session answer it. */
module NackPath {
  import opened RtcpSpec
  import opened NackPathSpec
  import N = NackSpec
  import R = Rtcp
  import Sess = Session

  method OnNackPacket(sess: Sess.Session, media: nat, video: nat, entries: seq<(nat, nat)>, f: N.Feedback, w: N.Widths)
    requires sess.Valid()
    modifies sess, sess.pacer, sess.nackSeen
    ensures sess.Valid()
    ensures (sess.Abs(), sess.NackAbs()) == HandlePacket(old(sess.Abs()), old(sess.NackAbs()), media, video, entries, f, w)
  {
    hide ExpandAll;
    if media != video { return; }
    var seqs := new nat[MAX_EXPANDED];
    var ok, n := R.NackExpand(entries, seqs);
    if !ok { return; }
    assert seqs[..n] == ExpandAll(entries);
    sess.OnNack(f.(seqs := seqs[..n]), w);
  }
}
