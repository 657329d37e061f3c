/**
 * References to catalog artifacts (src/entity_ref.rs, src/artifacts.rs): the kinds that
 * a reference may name are those the catalog keeps, under the same names.
 */
module ArtifactRefs {
  import opened Wrappers
  import opened Text
  import opened EntityRefs
  import opened EntityRefLaws
  import opened ArtifactPaths

  lemma KindsAgree(s: string)
    ensures ValidArtifactKind(s) <==> exists kind: Kind :: s == KindDir(kind)
  {
    if ValidArtifactKind(s) {
      var kind := KindNamed(s);
      assert s == KindDir(kind);
    }
    if exists kind: Kind :: s == KindDir(kind) {
      var kind: Kind :| s == KindDir(kind);
      KindIsValid(kind);
    }
  }

  lemma KindNamed(s: string) returns (kind: Kind)
    requires ValidArtifactKind(s)
    ensures s == KindDir(kind)
  {
    kind := if s == "workflow" then Kind.Workflow
            else if s == "packet" then Kind.Packet
            else if s == "brofile" then Kind.Brofile
            else if s == "agent" then Kind.Agent
            else if s == "atom" then Kind.Atom
            else if s == "team" then Kind.Team
            else Kind.Cron;
  }

  lemma KindIsValid(kind: Kind)
    ensures ValidArtifactKind(KindDir(kind))
  {
  }

  lemma TextParses(r: EntityRef, text: string)
    requires WellFormed(r) && TryRender(r) == Ok(text)
    ensures Parse(text) == Ok(r)
  {
    RoundTripExactly(r);
  }

  lemma ArtifactText(kind: string, name: string, version: string)
    ensures TryRender(EntityRef.Artifact(kind, name, None)) == Ok("artifact:" + kind + "/" + name)
    ensures TryRender(EntityRef.Artifact(kind, name, Some(version)))
         == Ok("artifact:" + kind + "/" + name + "@" + version)
  {
  }

  lemma PlainArtifact(kind: string, name: string)
    requires ValidArtifactKind(kind) && name != "" && '@' !in name && NoTrailingSpace(name)
    ensures WellFormed(EntityRef.Artifact(kind, name, None))
  {
  }

  lemma VersionedArtifact(kind: string, name: string, version: string)
    requires ValidArtifactKind(kind) && name != "" && version != "" && '@' !in version && NoTrailingSpace(version)
    requires version[0] != 'v'
    ensures WellFormed(EntityRef.Artifact(kind, name, Some(version)))
  {
  }

  /** Every name of an artifact can be referred to, unless it holds an at sign or ends in white space. */
  lemma ArtifactParses(kind: Kind, name: string)
    requires name != "" && '@' !in name && NoTrailingSpace(name)
    ensures Parse("artifact:" + KindDir(kind) + "/" + name)
         == Ok(EntityRef.Artifact(KindDir(kind), name, None))
  {
    KindIsValid(kind);
    PlainArtifact(KindDir(kind), name);
    ArtifactText(KindDir(kind), name, "");
    TextParses(EntityRef.Artifact(KindDir(kind), name, None), "artifact:" + KindDir(kind) + "/" + name);
  }

  /** Behind a version the name may hold at signs. */
  lemma VersionParses(kind: Kind, name: string, version: string)
    requires name != "" && version != "" && '@' !in version && NoTrailingSpace(version) && version[0] != 'v'
    ensures Parse("artifact:" + KindDir(kind) + "/" + name + "@" + version)
         == Ok(EntityRef.Artifact(KindDir(kind), name, Some(version)))
  {
    KindIsValid(kind);
    VersionedArtifact(KindDir(kind), name, version);
    ArtifactText(KindDir(kind), name, version);
    TextParses(EntityRef.Artifact(KindDir(kind), name, Some(version)),
               "artifact:" + KindDir(kind) + "/" + name + "@" + version);
  }
}
