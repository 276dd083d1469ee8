/**
 * The renderer's configuration record. The application keeps one mutable global;
 * here it is an immutable value handed to every rendering function.
 *
 * Numeric settings that the renderer only writes into CSS are kept as the decimal
 * text JavaScript prints for them. `bubblePaddingWide` is the text of
 * `bubblePadding * 1.25`. `borderWidth` and `shadowIntensity` take part in a
 * comparison or a computation, so they are integers.
 */
module Config {
  datatype Settings = Settings(
    charName: string,
    charLink: string,
    userName: string,
    aiModel: string,
    promptName: string,
    subModel: string,
    bgColor: string,
    textColor: string,
    charColor: string,
    userColor: string,
    boldColor: string,
    italicColor: string,
    dialogueColor: string,
    dialogueBgColor: string,
    aiBubbleColor: string,
    userBubbleColor: string,
    fontFamily: string,
    fontSize: string,
    containerWidth: string,
    containerPadding: string,
    borderRadius: string,
    bubbleRadius: string,
    bubblePadding: string,
    bubblePaddingWide: string,
    lineHeight: string,
    letterSpacing: string,
    borderWidth: int,
    borderColor: string,
    boxShadow: bool,
    shadowIntensity: int,
    textAlign: string,
    badgeModelColor: string,
    badgePromptColor: string,
    badgeSubColor: string,
    showNametag: bool)

  /** The values the application starts with. */
  const Defaults := Settings(
    charName := "", charLink := "", userName := "", aiModel := "", promptName := "", subModel := "",
    bgColor := "#ffffff", textColor := "#18181b", charColor := "#18181b", userColor := "#71717a",
    boldColor := "#dc2626", italicColor := "#6366f1", dialogueColor := "#059669",
    dialogueBgColor := "#ecfdf5", aiBubbleColor := "#f4f4f5", userBubbleColor := "#dbeafe",
    fontFamily := "Pretendard, sans-serif", fontSize := "16", containerWidth := "800",
    containerPadding := "2", borderRadius := "16", bubbleRadius := "16", bubblePadding := "1",
    bubblePaddingWide := "1.25", lineHeight := "1.8", letterSpacing := "0",
    borderWidth := 0, borderColor := "#e4e4e7", boxShadow := true, shadowIntensity := 30,
    textAlign := "justify", badgeModelColor := "#18181b", badgePromptColor := "#71717a",
    badgeSubColor := "#a1a1aa", showNametag := true)
}
