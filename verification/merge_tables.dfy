/** The four merge tables the script passes to `preprocess_column`, as data. */
module MergeTables {
  import opened Merging
  import opened Encoding

  /** `merge_rename_operations_technology` (lines 52-82): the technology merge table, in dict order. */
  const TechnologyMerges: seq<MergeGroup> := [
    MergeGroup("tech_unclear/unknown", ["tech_unclear/unknown", "tech_unknown"]),
    MergeGroup("tech_facial recognition/detection/identification", ["tech_facial recognition", "tech_facial detection", "tech_facial recogniton", "tech_facial detection"]),
    MergeGroup("tech_(performance) scoring algorithm", ["tech_performance scoring algorithm", "tech_scoring algorithm"]),
    MergeGroup("tech_location analytics", ["tech_location tracking", "tech_location recognition", "tech_location analytics"]),
    MergeGroup("tech_social media (monitoring)", ["tech_social media monitoring", "tech_social media"]),
    MergeGroup("tech_emotion recognition/detection", ["tech_emotion recognition", "tech_emotion detection"]),
    MergeGroup("tech_neural networks", ["tech_neural networks", "tech_neural network"]),
    MergeGroup("tech_image generation", ["tech_image generator", "tech_image generation"]),
    MergeGroup("tech_large language model (llm)", ["tech_large language model", "tech_large language model (llm)"]),
    MergeGroup("tech_speech/voice recognition", ["tech_speech/voice recognition", "tech_speech ecognition", "tech_speech recognition", "tech_voice recognition"]),
    MergeGroup("tech_image recognition/filtering", ["tech_image recognition/filtering", "tech_image recognition"]),
    MergeGroup("tech_vehicle detection", ["tech_vehicle detection", "tech_vehicle detection system"]),
    MergeGroup("tech_object recognition/detection/identification", ["tech_object identification", "tech_object recognition", "tech_object detection"]),
    MergeGroup("tech_voice generation/synthesis", ["tech_voice synthesis", "tech_voice generation"]),
    MergeGroup("tech_gaze recognition/detection", ["tech_gaze detection", "tech_gaze recognition"]),
    MergeGroup("tech_text-to-speech", ["tech_text-to-speech", "tech_text to speech"]),
    MergeGroup("tech_virtual reality (vr)", ["tech_virtual reality (vr)", "tech_virtual reality"]),
    MergeGroup("tech_behavioural analysis", ["tech_behavioural monitoring", "tech_behavioural monitoring system", "tech_behavioural analysis"]),
    MergeGroup("tech_predictive (statistical) analytics", ["tech_predictive statistical analysis", "tech_predictive analytics"]),
    MergeGroup("tech_content management/moderation system", ["tech_content moderation system", "tech_content management system"]),
    MergeGroup("tech_deepfake - audio", ["tech_deepfake - audio", "tech_audio"]),
    MergeGroup("tech_deepfake - image", ["tech_deepfake - image", "tech_image"]),
    MergeGroup("tech_deepfake - video", ["tech_deepfake - video", "tech_video"]),
    MergeGroup("tech_gesture analysis", ["tech_gesture analysis", "tech_gesture recognition", "tech_smile recognition"]),
    MergeGroup("tech_pricing algorithm", ["tech_pricing algorithm", "tech_price adjustment algorithm", "tech_pricing automation"]),
    MergeGroup("tech_facial analysis", ["tech_facial analysis", "tech_facial matching", "tech_facial scanning"]),
    MergeGroup("tech_fingerprint analysis", ["tech_fingerprint biometrics", "tech_fingerprint scanning", "tech_fingerprint recognition"]),
    MergeGroup("tech_risk assessment algorithm/system", ["tech_risk assessment algorithm", "tech_risk assessment/classification algorithm", "tech_recidivism risk assessment system", "tech_automated risk assessment"]),
    MergeGroup("tech_scheduling algorithm/software", ["tech_scheduling algorithm", "tech_crew scheduling software"])
  ]

  /** `merge_rename_operations_sector` (lines 85-95): the sector merge table, in dict order. */
  const SectorMerges: seq<MergeGroup> := [
    MergeGroup("sector_sector_real estate sales/management", ["sector_real estate sales/management", "sector_real estate"]),
    MergeGroup("sector_govt - health", ["sector_gov - health", "sector_govt - health"]),
    MergeGroup("sector_business/professional services", ["sector_professional/business services", "sector_business/professional services"]),
    MergeGroup("sector_govt - police", ["sector_govt - police", "sector_police"]),
    MergeGroup("sector_govt - agriculture", ["sector_govt - agriculture", "sector_agriculture"]),
    MergeGroup("sector_private - individual", ["sector_private - individual", "sector_private"]),
    MergeGroup("sector_banking/financial services", ["sector_banking/financial services", "sector_govt - finance"]),
    MergeGroup("sector_education", ["sector_education", "sector_govt - education"]),
    MergeGroup("sector_telecoms", ["sector_telecoms", "sector_govt - telecoms"])
  ]

  /** `merge_rename_operations_issue` (lines 98-138): the issue merge table, in dict order. */
  const IssueMerges: seq<MergeGroup> := [
    MergeGroup("issue_bias/discrimination - lgbtqi+", ["issue_bias/discrimination - transgender", "issue_transgender", "issue_bias/discrimination - sexual preference (lgbtq)", "issue_bias/discrimination - lgbtq", "issue_lgbtq"]),
    MergeGroup("issue_necessity/proportionality", ["issue_necessity/proportionality", "issue_proportionality"]),
    MergeGroup("issue_bias/discrimination - race/ethnicity", ["issue_bias/discimination - race", "issue_race", "issue_bias/disrimination - race", "issue_ethnicity", "issue_bias/discrimination - racial", "issue_bias/discrimination - ethnicity", "issue_bias/discrimination - race", "issue_bias/disrimination - ethnicity"]),
    MergeGroup("issue_bias/discrimination - political", ["issue_bias/discrimination - politics", "issue_bias/discrimination - political", "issue_political"]),
    MergeGroup("issue_mis/dis-information", ["issue_mis-disinformation", "issue_mis/dsinformation", "issue_mis/disinformation"]),
    MergeGroup("issue_autonomous lethal weapons", ["issue_autonomous lethal weapons", "issue_lethal autonomous weapons"]),
    MergeGroup("issue_governance/accountability - capability/capacity", ["issue_capability/capacity", "issue_governance/accountability - capability/capacity", "issue_governance/accountability", "issue_governance - capability/capacity"]),
    MergeGroup("issue_ethics/values", ["issue_ethics", "issue_ethics/values"]),
    MergeGroup("issue_ownership/accountability", ["issue_ownership/accountability", "issue_accountability"]),
    MergeGroup("issue_ip/copyright", ["issue_copyright", "issue_ip/copyright"]),
    MergeGroup("issue_reputational damage", ["issue_reputation", "issue_reputational damage"]),
    MergeGroup("issue_bias/discrimination - employment/income", ["issue_bias/discrimination - employment", "issue_employment", "issue_bias/discrimination - income", "issue_income", "issue_bias/discrimination - profession/job"]),
    MergeGroup("issue_legal - liability", ["issue_legal - liability", "issue_liability"]),
    MergeGroup("issue_identity theft/impersonation", ["issue_identity theft/impersonation", "issue_impersonation"]),
    MergeGroup("issue_bias/discrimination - disability", ["issue_bias/discrimination - disability", "issue_disability"]),
    MergeGroup("issue_bias/discrimination - economic", ["issue_bias/discrimination - economic", "issue_economic"]),
    MergeGroup("issue_bias/discrimination - political opinion/persuasion", ["issue_bias/discrimination - political opinion", "issue_bias/discrimination - political persuasion"]),
    MergeGroup("issue_nationality", ["issue_national origin", "issue_nationality", "issue_national identity"]),
    MergeGroup("issue_employment - pay/compensation", ["issue_pay", "issue_employment - pay", "issue_employment - pay/compensation"]),
    MergeGroup("issue_corruption/fraud", ["issue_fraud", "issue_corruption/fraud", "issue_legal - fraud", "issue_safety - fraud"]),
    MergeGroup("issue_bias/discrimination - gender", ["issue_bias/discrimination - gender", "issue_gender"]),
    MergeGroup("issue_accuracy/reliabiity", ["issue_accuracy/reliabiity", "issue_accuracy/reliability", "issue_accuracy/reliabilty", "issue_accuracy/reliablity", "issue_accuray/reliability"]),
    MergeGroup("issue_bias/discrimination - body size/weight", ["issue_size", "issue_body size", "issue_weight"]),
    MergeGroup("issue_bias/discrimination - location", ["issue_bias/discrimination - location", "issue_location"]),
    MergeGroup("issue_employment - unionisation", ["issue_unionisation", "issue_employment - unionisation"]),
    MergeGroup("issue_employment - jobs", ["issue_employment - jobs", "issue_jobs"]),
    MergeGroup("issue_bias/discrimination - religion", ["issue_bias/discrimination - religion", "issue_religion"]),
    MergeGroup("issue_employment - health & safety", ["issue_employment - health & safety", "issue_employment - safety"]),
    MergeGroup("issue_bias/discrimination - age", ["issue_bias/discrimination - age", "issue_age"]),
    MergeGroup("issue_privacy - consent", ["issue_privacy - consent", "issue_privacy"]),
    MergeGroup("issue_value/effectiveness", ["issue_value/effectiveness", "issue_effectiveness/value"]),
    MergeGroup("issue_oversight/review", ["issue_oversight", "issue_oversight/review"]),
    MergeGroup("issue_legal - defamation/libel", ["issue_legal - defamation/libel", "issue_defamation"]),
    MergeGroup("issue_misleading marketing", ["issue_misleading marketing", "issue_misleading"]),
    MergeGroup("issue_bias/discrimination - education", ["issue_education"]),
    MergeGroup("issue_employment - termination", ["issue_employment - termination", "issue_termination"]),
    MergeGroup("issue_anthropomorphism", ["issue_robot rights", "issue_anthropomorphism"]),
    MergeGroup("issue_humanrights_freedom", ["issue_freedom of expression - right of assembly", "issue_freedom of expression - censorship", "issue_freedom of expression", "issue_freedom of information"])
  ]

  /** `merge_rename_operations_transparency` (lines 141-149): the transparency merge table, in dict order. */
  const TransparencyMerges: seq<MergeGroup> := [
    MergeGroup("transp_black box", ["transp_back box", "transp_black box", "transp_governance: black box"]),
    MergeGroup("transp_legal", ["transp_legal", "transp_legal - mediation", "transp_legal - foi request blocks"]),
    MergeGroup("transp_marketing: privacy", ["transp_marketing: privacy", "transp_marketing privacy"]),
    MergeGroup("transp_privacy/consent", ["transp_privacy - consent", "transp_consent", "transp_privacy"]),
    MergeGroup("transp_complaints/appeals", ["transp_complaints/appeals", "transp_complaints & appeals", "transp_appeals/complaints"])
  ]

  lemma TechnologyWellFormed()
    ensures WellFormed(TechnologyMerges)
  {
  }

  lemma SectorWellFormed()
    ensures WellFormed(SectorMerges)
  {
  }

  lemma IssueWellFormed()
    ensures WellFormed(IssueMerges)
  {
  }

  lemma TransparencyWellFormed()
    ensures WellFormed(TransparencyMerges)
  {
  }

  /** `tech_unclear/unknown` is written by the first technology group and by no later one. */
  lemma UnclearNotRewritten()
    ensures forall j :: 0 < j < |TechnologyMerges| ==> TechnologyMerges[j].canonical != "tech_unclear/unknown"
  {
  }

  /** The first technology group lists its own canonical name as a source, so a
      successful technology merge leaves no `tech_unclear/unknown` column. */
  lemma UnclearUnknownDropped(b: Block)
    requires b.Valid()
    requires WellFormed(TechnologyMerges) && ApplyMerges(b, TechnologyMerges).Ok?
    ensures "tech_unclear/unknown" !in ApplyMerges(b, TechnologyMerges).value.cols
  {
    UnclearNotRewritten();
    MergesRemoveSources(b, TechnologyMerges, 0, "tech_unclear/unknown");
  }

  /** The second technology group lists `tech_facial detection` twice (line 54);
      it acts exactly as the group with the repeat removed. */
  lemma FacialDuplicateHarmless(b: Block)
    requires b.Valid()
    ensures ApplyGroup(b, TechnologyMerges[1]) ==
      ApplyGroup(b, MergeGroup("tech_facial recognition/detection/identification",
        ["tech_facial recognition", "tech_facial detection", "tech_facial recogniton"]))
  {
    var sources := ["tech_facial recognition", "tech_facial detection", "tech_facial recogniton"];
    assert TechnologyMerges[1].sources == sources + ["tech_facial detection"];
    RepeatedSourceHarmless(b, TechnologyMerges[1].canonical, sources, ["tech_facial detection"]);
  }
}
