/** The forty-member seed directory `MEMBERS_DATA` (constants.ts). */
module SeedData {
  import opened Types
  import opened Constants

  /** `MEMBERS_DATA`: the seed directory, stamped with the time `now` it was built. */
  function MembersData(now: string): (d: Directory)
    ensures |d| == |SeedRows|
  {
    BuildDirectory(SeedRows, SeedTypes, now)
  }

  /** The `type` argument of each seed line, in directory order: only the lines of
      `m33` and `m40` pass one. */
  const SeedTypes: seq<Option<MemberType>> := [
      None,
      None,
      None,
      None,
      None,
      None,
      None,
      None,
      None,
      None,
      None,
      None,
      None,
      None,
      None,
      None,
      None,
      None,
      None,
      None,
      None,
      None,
      None,
      None,
      None,
      None,
      None,
      None,
      None,
      None,
      None,
      None,
      Some(Affiliate),
      None,
      None,
      None,
      None,
      None,
      None,
      Some(Affiliate)
    ]

  const SeedRows: seq<SeedRow> := [
      SeedRow("ABCAL", "比利时采购、物流与供应链经理人协会", "Association francophone belge des Cadres d’Achat", Europe, "Belgium", "比利时", 50.85, 4.35, "GUELTON Jean-Louis", "jlguelton@gmail.com"),
      SeedRow("ADACI", "意大利采购与供应管理协会", "ADACI ASSOCIAZIONE ITALIANA ACQUISTI", Europe, "Italy", "意大利", 41.9, 12.5, "Paolo Marnoni", "paolo.marnoni@adaci.it"),
      SeedRow("AERCE", "西班牙采购专业协会", "ASOCIACIÓN ESPAÑOLA DE PROFESIONALES DE COMPRAS", Europe, "Spain", "西班牙", 40.4, -3.7, "FERRAN BAÑOS", "fbanos@aerce.org"),
      SeedRow("AMCA", "摩洛哥采购社团协会", "Association Marocaine de La Communauté Achats", Africa, "Morocco", "摩洛哥", 33.5, -7.6, "Yassine SERHANI", "serhani.yassine16@gmail.com; y.serhani@amca.ma"),
      SeedRow("APCADEC", "葡萄牙采购与供应协会", "APCADEC - Associação Portuguesa de Compras", Europe, "Portugal", "葡萄牙", 38.7, -9.1, "João Botelho", "joao.botelho@apcadec.org.pt"),
      SeedRow("APROCAL", "墨西哥采购与物流协会", "Asociación de Profesionales en Compras (APROCAL)", Americas, "Mexico", "墨西哥", 19.4, -99.1, "Cesar Leal", "cesare_leal@hotmail.com"),
      SeedRow("BME", "德国联邦采购物流协会", "BME - Supply Chain Management, Procurement and Logistics", Europe, "Germany", "德国", 50.1, 8.7, "Lars Kleeberg", "lars.kleeberg@bme.de"),
      SeedRow("BMÖ", "奥地利物资管理、采购与物流联邦协会", "BMÖ Bundesverband Materialwirtschaft", Europe, "Austria", "奥地利", 48.2, 16.4, "Dkfm. Heinz Pechek", "heinz.pechek@aon.at"),
      SeedRow("CAP (HUND)", "克罗地亚采购协会", "Croatian Association of Purchasing", Europe, "Croatia", "克罗地亚", 45.8, 16.0, "Mirela Senica", "mirela.senica@hund.hr"),
      SeedRow("CBEC", "巴西采购高管委员会", "CONSELHO BRASILEIRO DOS EXECUTIVOS DE COMPRAS", Americas, "Brazil", "巴西", -23.5, -46.6, "LISLEY PÓLVORA", "lisley.polvora@cbec.org.br"),
      SeedRow("CFLP", "中国物流与采购联合会", "China Federation of Logistics and Purchasing", AsiaPacific, "China", "中国", 39.9, 116.4, "Cai Jin", "international@cflp.org.cn"),
      SeedRow("CIPSMN", "尼日利亚特许采购与供应管理协会", "CHARTERED INSTITUTE OF PURCHASING NIGERIA", Africa, "Nigeria", "尼日利亚", 6.5, 3.4, "ALHAJI MOHAMMED JIMOH ALIYU", "mohamedjimohalliyu@yahoo.com"),
      SeedRow("CISCM", "加纳特许供应链管理协会", "Chartered Institute of Supply Chain Management", Africa, "Ghana", "加纳", 5.6, -0.2, "Richard Obeng Okrah", "okrahrichard@gmail.com"),
      SeedRow("CNA", "法国全国采购理事会", "Conseil national des Achats CNA", Europe, "France", "法国", 48.9, 2.4, "Jean-Luc BARAS", "Jean-Luc.BARAS@eiffage.com"),
      SeedRow("FZUP", "俄罗斯采购与供应管理联合会", "Federation of Purchasing and Supply Management Russia", Europe, "Russia", "俄罗斯", 55.8, 37.6, "Dmitriy Lapin", "lapindn@rambler.ru"),
      SeedRow("HALPIM", "匈牙利物流、采购与库存管理协会", "Hungarian Association of Logistics", Europe, "Hungary", "匈牙利", 47.5, 19.0, "Anita Kőhegyi", "anita.kohegyi@logisztika.hu"),
      SeedRow("HPI", "希腊采购协会", "HELLENIC PURCHASING INSTITUTE", Europe, "Greece", "希腊", 38.0, 23.7, "Ignatios Michailidis", "ignatios.michailidis@pepsico.com"),
      SeedRow("IAPI", "印度尼西亚采购专业协会", "INDONESIA PROCUREMENT ASSOCIATION (IAPI)", AsiaPacific, "Indonesia", "印度尼西亚", -6.2, 106.8, "Bapak Agus Prabowo", "prabowo2009@gmail.com"),
      SeedRow("IIMM", "印度物资管理协会", "INDIAN INSTITUTE OF MATERIALS MANAGEMENT", AsiaPacific, "India", "印度", 19.1, 72.9, "MR. LALBHAI PATEL", "lppatel09@yahoo.com"),
      SeedRow("IPLMA", "以色列采购与物流协会", "Israeli Purchasing and Logistics Society", Europe, "Israel", "以色列", 32.1, 34.8, "Gil Zefoni", "gil@zefoni.com"),
      SeedRow("IPPU", "乌干达采购专业协会", "Institute of Procurement Professionals of Uganda", Africa, "Uganda", "乌干达", 0.3, 32.6, "Pelly Mugasi Dr. Bategeka Kabagambe Levi", "Dr. Levi Kabagambe Bategeka <levi.kabagambe@gmail.com>"),
      SeedRow("IPSHK", "中国香港物资采购与供销学会", "The Institute of Purchasing & Supply of Hong Kong", AsiaPacific, "Hong Kong", "香港", 22.3, 114.2, "Dr Stephen Ng", "drswkng@netvigator.com"),
      SeedRow("ISMM", "斯里兰卡供应与物资管理学会", "Institute of Supply and Materials Management", AsiaPacific, "Sri Lanka", "斯里兰卡", 6.9, 79.9, "Lilantha Subasinghe", "lilantha.subasinghe@gmail.com; president@ismm.edu.lk"),
      SeedRow("LOGY", "芬兰采购与物流协会", "The Finnish Association of Purchasing and Logistics", Europe, "Finland", "芬兰", 60.2, 24.9, "Jyri Vilko", "jyri.vilko@lut.fi"),
      SeedRow("MIPMM", "马来西亚采购与物资管理学会", "Malaysian Institute of Purchasing & Materials Management", AsiaPacific, "Malaysia", "马来西亚", 3.1, 101.7, "YANG CHOR LEONG", "yang.chorleong@gmail.com"),
      SeedRow("NEVI", "荷兰采购与供应管理协会", "Nevi B.V.", Europe, "Netherlands", "荷兰", 52.4, 4.9, "Jeroen Hulsman", "j.hulsman@nevi.nl"),
      SeedRow("PASIA", "亚洲采购与供应研究院", "Procurement and Supply Institute of Asia, Inc.", AsiaPacific, "Philippines", "菲律宾", 14.6, 121.0, "Charlie Villasenor", "charlie.villasenor@pasia.org"),
      SeedRow("PISM", "菲律宾供应管理协会", "Philippine Institute for Supply Management", AsiaPacific, "Philippines", "菲律宾", 14.6, 121.1, "Gerard Magadia", "ggmagadia@hoi.com.ph"),
      SeedRow("PROCURE.CH", "瑞士采购协会", "procure.ch", Europe, "Switzerland", "瑞士", 46.9, 7.4, "Kyburz Andreas", "kyburz@procure.ch"),
      SeedRow("PROLOG", "爱沙尼亚供应链管理协会", "Eesti Tarneahelate Juhtimise Ühing PROLOG", Europe, "Estonia", "爱沙尼亚", 59.4, 24.8, "Tõnis Hintsov", "tonis.hintsov@prolog.ee"),
      SeedRow("PSCMT", "泰国采购与供应链管理协会", "Purchasing and Supply Chain Management Association", AsiaPacific, "Thailand", "泰国", 13.8, 100.5, "AKANIT SMITABINDU", "akanit@pscmt.or.th"),
      SeedRow("PSML", "波兰供应链管理协会", "PSML POLISH SUPPLY MANAGEMENT LEADERS", Europe, "Poland", "波兰", 52.2, 21.0, "Andrzej Zawistowski", "andrzej.zawistowski@psml.pl"),
      SeedRow("PSPTB", "坦桑尼亚采购与供应专业技术局", "Procurement and Supplies Technical Board", Africa, "Tanzania", "坦桑尼亚", -6.8, 39.2, "Godfred Mbanyi", "godfred.mbanyi@psptb.go.tz"),
      SeedRow("SILF", "瑞典采购与物流协会", "The Swedish Purchasing and Logistics Association", Europe, "Sweden", "瑞典", 59.3, 18.1, "Sofia Andersson", "sofia.andersson@silf.se"),
      SeedRow("TASS", "中国台湾永续供应联盟", "Taiwan Alliance for Sustainable Supply", AsiaPacific, "Taiwan", "台湾", 25.0, 121.6, "Shu-Shin (Steve) LAI", "Steve.Lai@go-tass.org"),
      SeedRow("Tusayder", "土耳其采购专业人士与管理者协会", "Satinalma Profesyonelleri ve Yoneticileri Dernegi", Europe, "Turkey", "土耳其", 39.9, 32.9, "Ediz KAPLAN", "ediz.kaplan@tusayder.org"),
      SeedRow("TÜSMOD", "土耳其采购与供应管理协会", "SATINALMA VE TEDARIK YÖNETIMI DERNEĞI", Europe, "Turkey", "土耳其", 41.0, 29.0, "Gurkan Huryilmaz", "gurkan.huryilmaz@tusmod.org"),
      SeedRow("ZNS", "斯洛文尼亚采购协会", "ZNS-Združenje nabavnikov Slovenije", Europe, "Slovenia", "斯洛文尼亚", 46.1, 14.5, "Marina Lindič", "marina.lindic@zns-zdruzenje.si"),
      SeedRow("Supply Chain Canada", "加拿大供应链协会", "Supply Chain Canada", Americas, "Canada", "加拿大", 56.1, -106.3, "Dylan Barett", "dbartlett@supplychaincanada.com"),
      SeedRow("EIPM", "欧洲采购管理学院", "The European Institute of Purchasing Management", Europe, "France", "法国", 45.8, 4.8, "Bernard Gracia", "bgracia@eipm.org")
    ]

  /** Exactly two seed lines, those of `m33` and `m40`, name a member type, and it is
      `Affiliate`. */
  lemma SeedTypesListed()
    ensures |SeedTypes| == |SeedRows| == 40
    ensures forall i :: 0 <= i < |SeedTypes| ==> (SeedTypes[i].Some? <==> i in {32, 39})
    ensures forall i :: 0 <= i < |SeedTypes| && SeedTypes[i].Some? ==> SeedTypes[i].value == Affiliate
  {
  }

  /** The seed directory has forty members. */
  lemma SeedCount(now: string)
    ensures |MembersData(now)| == 40
  {
    SeedTypesListed();
  }

  /** The seed ids are `m1` to `m40` in directory order, pairwise distinct. */
  lemma SeedIds(now: string)
    ensures IdsNumbered(MembersData(now))
    ensures DistinctMemberIds(MembersData(now))
  {
    SeedTypesListed();
    BuildDirectoryFacts(SeedRows, SeedTypes, now, {32, 39});
  }

  /** Every seed member is an active association with confirmed fixed fields. */
  lemma SeedShapes(now: string)
    ensures AllSeedShaped(MembersData(now))
  {
    SeedTypesListed();
    BuildDirectoryFacts(SeedRows, SeedTypes, now, {32, 39});
  }

  /** `m33` and `m40` (positions 32 and 39) are the only affiliates of the seed. */
  lemma SeedAffiliates(now: string)
    ensures AffiliatesExactlyAt(MembersData(now), {32, 39})
  {
    SeedTypesListed();
    BuildDirectoryFacts(SeedRows, SeedTypes, now, {32, 39});
  }
}
